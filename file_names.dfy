/** clean_filename: the two regular-expression substitutions and the
    strip that sanitise a file name. All of them are pure string functions. */
module FileNames {

  /** The characters `[<>:"/\\|?*]` matches. */
  predicate IsIllegal(c: char) {
    c == '<' || c == '>' || c == ':' || c == '"' || c == '/' || c == '\\' || c == '|' || c == '?' || c == '*'
  }

  /** The characters `\s` matches in a str pattern (those for which
      `str.isspace()` holds), which are also the ones `strip()` removes. */
  predicate IsSpace(c: char) {
    var n := c as int;
    || 0x09 <= n <= 0x0D || 0x1C <= n <= 0x20 || n == 0x85 || n == 0xA0 || n == 0x1680
    || 0x2000 <= n <= 0x200A || n == 0x2028 || n == 0x2029 || n == 0x202F || n == 0x205F || n == 0x3000
  }

  predicate NoIllegal(s: string) {
    forall i :: 0 <= i < |s| ==> !IsIllegal(s[i])
  }

  /** Every whitespace character is a plain ' '. */
  predicate OnlyPlainSpaces(s: string) {
    forall i :: 0 <= i < |s| && IsSpace(s[i]) ==> s[i] == ' '
  }

  /** No two whitespace characters are adjacent. */
  predicate NoAdjacentSpaces(s: string) {
    forall i :: 0 <= i < |s| - 1 ==> !(IsSpace(s[i]) && IsSpace(s[i + 1]))
  }

  /** No whitespace at either end. */
  predicate Trimmed(s: string) {
    s == [] || (!IsSpace(s[0]) && !IsSpace(s[|s| - 1]))
  }

  /** The characters of `s` that are not whitespace, in order. */
  function Visible(s: string): string {
    if |s| == 0 then [] else (if IsSpace(s[0]) then [] else [s[0]]) + Visible(s[1..])
  }

  lemma {:induction false} VisibleAppend(a: string, b: string)
    ensures Visible(a + b) == Visible(a) + Visible(b)
  {
    if |a| == 0 {
      assert a + b == b;
    } else {
      var ab := a + b;
      assert ab[0] == a[0] && ab[1..] == a[1..] + b;
      VisibleAppend(a[1..], b);
      var head := if IsSpace(a[0]) then [] else [a[0]];
      assert Visible(a) == head + Visible(a[1..]);
      assert Visible(ab) == head + Visible(a[1..] + b);
    }
  }

  /** The first substitution: each illegal character becomes one '_'. */
  function ReplaceIllegal(s: string): (r: string)
    ensures |r| == |s|
    ensures forall i :: 0 <= i < |s| ==> r[i] == if IsIllegal(s[i]) then '_' else s[i]
  {
    if |s| == 0 then [] else [if IsIllegal(s[0]) then '_' else s[0]] + ReplaceIllegal(s[1..])
  }

  lemma ReplaceNoIllegal(s: string)
    ensures NoIllegal(ReplaceIllegal(s))
  {
    var r := ReplaceIllegal(s);
    assert forall i :: 0 <= i < |r| ==> r[i] == '_' || r[i] == s[i];
  }

  /** Drop the whitespace at the front of `s`. */
  function DropSpaces(s: string): (r: string)
    ensures |r| <= |s| && r == s[|s| - |r|..]
    ensures r == [] || !IsSpace(r[0])
  {
    if |s| > 0 && IsSpace(s[0]) then DropSpaces(s[1..]) else s
  }

  /** Drop the whitespace at the end of `s`. */
  function DropTrailingSpaces(s: string): (r: string)
    ensures |r| <= |s| && r == s[..|r|]
    ensures r == [] || !IsSpace(r[|r| - 1])
  {
    if |s| > 0 && IsSpace(s[|s| - 1]) then DropTrailingSpaces(s[..|s| - 1]) else s
  }

  /** The second substitution, `re.sub(r'\s+', ' ', s)`: every run of
      whitespace becomes one ' '. */
  function CollapseSpaces(s: string): (r: string)
    ensures |r| <= |s|
    ensures |s| > 0 ==> |r| > 0 && IsSpace(r[0]) == IsSpace(s[0])
    decreases |s|
  {
    if |s| == 0 then []
    else if IsSpace(s[0]) then [' '] + CollapseSpaces(DropSpaces(s[1..]))
    else [s[0]] + CollapseSpaces(s[1..])
  }

  /** `strip()`: no whitespace is left at either end, and a string with
      none there is returned as it is. */
  function Strip(s: string): (r: string)
    ensures Trimmed(r)
    ensures Trimmed(s) ==> r == s
  {
    var front := DropSpaces(s);
    var r := DropTrailingSpaces(front);
    assert |r| > 0 ==> r[0] == front[0];
    r
  }

  /** clean_filename: no illegal character, whitespace only as single ' '
      characters between other characters, and every other character of
      the substituted name kept, in order. */
  function CleanFilename(filename: string): (r: string)
    ensures NoIllegal(r)
    ensures Trimmed(r)
    ensures OnlyPlainSpaces(r) && NoAdjacentSpaces(r)
    ensures Visible(r) == Visible(ReplaceIllegal(filename))
  {
    var replaced := ReplaceIllegal(filename);
    var collapsed := CollapseSpaces(replaced);
    ReplaceNoIllegal(filename);
    CollapseNoIllegal(replaced);
    CollapseOnlyPlainSpaces(replaced);
    CollapseNoAdjacentSpaces(replaced);
    CollapseVisible(replaced);
    StripProperties(collapsed);
    Strip(collapsed)
  }

  lemma {:induction false} DropSpacesVisible(s: string)
    ensures Visible(DropSpaces(s)) == Visible(s)
  {
    if |s| > 0 && IsSpace(s[0]) {
      DropSpacesVisible(s[1..]);
    }
  }

  lemma {:induction false} DropTrailingSpacesVisible(s: string)
    ensures Visible(DropTrailingSpaces(s)) == Visible(s)
  {
    if |s| > 0 && IsSpace(s[|s| - 1]) {
      var init := s[..|s| - 1];
      DropTrailingSpacesVisible(init);
      VisibleAppend(init, [s[|s| - 1]]);
      assert s == init + [s[|s| - 1]];
    }
  }

  lemma {:induction false} CollapseNoIllegal(s: string)
    requires NoIllegal(s)
    ensures NoIllegal(CollapseSpaces(s))
    decreases |s|
  {
    if |s| > 0 {
      var tail := s[1..];
      TailProperties(s);
      if IsSpace(s[0]) {
        var rest := DropSpaces(tail);
        DropSpacesNoIllegal(tail);
        CollapseNoIllegal(rest);
        ConsProperties(' ', CollapseSpaces(rest), CollapseSpaces(s));
      } else {
        CollapseNoIllegal(tail);
        ConsProperties(s[0], CollapseSpaces(tail), CollapseSpaces(s));
      }
    }
  }

  /** What holds of every character, or of every adjacent pair, of a
      non-empty string holds of its tail. */
  lemma TailProperties(s: string)
    requires |s| > 0
    ensures NoIllegal(s) ==> NoIllegal(s[1..])
    ensures OnlyPlainSpaces(s) ==> OnlyPlainSpaces(s[1..])
    ensures NoAdjacentSpaces(s) ==> NoAdjacentSpaces(s[1..])
  {
    var t := s[1..];
    assert forall i :: 0 <= i < |t| ==> t[i] == s[i + 1];
  }

  lemma {:induction false} DropSpacesNoIllegal(s: string)
    requires NoIllegal(s)
    ensures NoIllegal(DropSpaces(s))
  {
    if |s| > 0 && IsSpace(s[0]) {
      TailProperties(s);
      DropSpacesNoIllegal(s[1..]);
    }
  }

  /** What holds of every character, or of every adjacent pair, of `t`
      holds of `[c] + t` when it holds of `c` and its new neighbour. */
  lemma ConsProperties(c: char, t: string, r: string)
    requires r == [c] + t
    ensures NoIllegal(t) && !IsIllegal(c) ==> NoIllegal(r)
    ensures OnlyPlainSpaces(t) && (IsSpace(c) ==> c == ' ') ==> OnlyPlainSpaces(r)
    ensures NoAdjacentSpaces(t) && (|t| > 0 && IsSpace(c) ==> !IsSpace(t[0])) ==> NoAdjacentSpaces(r)
  {
    assert forall i :: 1 <= i < |r| ==> r[i] == t[i - 1];
  }

  lemma {:induction false} CollapseOnlyPlainSpaces(s: string)
    ensures OnlyPlainSpaces(CollapseSpaces(s))
    decreases |s|
  {
    if |s| > 0 {
      if IsSpace(s[0]) {
        var rest := DropSpaces(s[1..]);
        CollapseOnlyPlainSpaces(rest);
        ConsProperties(' ', CollapseSpaces(rest), CollapseSpaces(s));
      } else {
        CollapseOnlyPlainSpaces(s[1..]);
        ConsProperties(s[0], CollapseSpaces(s[1..]), CollapseSpaces(s));
      }
    }
  }

  lemma {:induction false} CollapseNoAdjacentSpaces(s: string)
    ensures NoAdjacentSpaces(CollapseSpaces(s))
    decreases |s|
  {
    if |s| > 0 {
      if IsSpace(s[0]) {
        var rest := DropSpaces(s[1..]);
        CollapseNoAdjacentSpaces(rest);
        ConsProperties(' ', CollapseSpaces(rest), CollapseSpaces(s));
      } else {
        CollapseNoAdjacentSpaces(s[1..]);
        ConsProperties(s[0], CollapseSpaces(s[1..]), CollapseSpaces(s));
      }
    }
  }

  lemma {:induction false} CollapseVisible(s: string)
    ensures Visible(CollapseSpaces(s)) == Visible(s)
    decreases |s|
  {
    if |s| > 0 {
      var tail := s[1..];
      VisibleCons(s[0], tail);
      assert s == [s[0]] + tail;
      if IsSpace(s[0]) {
        var rest := DropSpaces(tail);
        CollapseVisible(rest);
        DropSpacesVisible(tail);
        VisibleCons(' ', CollapseSpaces(rest));
        assert CollapseSpaces(s) == [' '] + CollapseSpaces(rest);
      } else {
        CollapseVisible(tail);
        VisibleCons(s[0], CollapseSpaces(tail));
        assert CollapseSpaces(s) == [s[0]] + CollapseSpaces(tail);
      }
    }
  }

  lemma VisibleCons(c: char, t: string)
    ensures Visible([c] + t) == (if IsSpace(c) then [] else [c]) + Visible(t)
  {
    var r := [c] + t;
    assert r[0] == c && r[1..] == t;
  }

  /** A collapsed string is left alone by a second collapse. */
  lemma {:induction false} CollapseFixpoint(s: string)
    requires OnlyPlainSpaces(s) && NoAdjacentSpaces(s)
    ensures CollapseSpaces(s) == s
    decreases |s|
  {
    if |s| > 0 {
      var tail := s[1..];
      TailProperties(s);
      CollapseFixpoint(tail);
      if IsSpace(s[0]) {
        assert |tail| > 0 ==> !IsSpace(tail[0]);
        assert DropSpaces(tail) == tail;
        assert CollapseSpaces(s) == [' '] + CollapseSpaces(tail);
      } else {
        assert CollapseSpaces(s) == [s[0]] + CollapseSpaces(tail);
      }
      assert s == [s[0]] + tail;
    }
  }

  /** strip() returns a slice of its input. */
  lemma StripSlice(s: string) returns (k: nat)
    ensures k + |Strip(s)| <= |s| && Strip(s) == s[k..k + |Strip(s)|]
  {
    k := |s| - |DropSpaces(s)|;
  }

  /** What holds of every character, or of every adjacent pair, of a
      string holds of each slice of it. */
  lemma SliceProperties(s: string, i: nat, j: nat, t: string)
    requires i <= j <= |s| && t == s[i..j]
    ensures NoIllegal(s) ==> NoIllegal(t)
    ensures OnlyPlainSpaces(s) ==> OnlyPlainSpaces(t)
    ensures NoAdjacentSpaces(s) ==> NoAdjacentSpaces(t)
  {
    assert forall k :: 0 <= k < |t| ==> t[k] == s[i + k];
  }

  /** strip() removes only whitespace, and keeps the legal and collapsed
      shape of what it keeps. */
  lemma StripProperties(s: string)
    ensures Visible(Strip(s)) == Visible(s)
    ensures NoIllegal(s) ==> NoIllegal(Strip(s))
    ensures OnlyPlainSpaces(s) ==> OnlyPlainSpaces(Strip(s))
    ensures NoAdjacentSpaces(s) ==> NoAdjacentSpaces(Strip(s))
  {
    var front := DropSpaces(s);
    var r := Strip(s);
    assert r == DropTrailingSpaces(front);
    DropSpacesVisible(s);
    DropTrailingSpacesVisible(front);
    var k := StripSlice(s);
    SliceProperties(s, k, k + |r|, r);
  }

  lemma ReplaceFixpoint(s: string)
    requires NoIllegal(s)
    ensures ReplaceIllegal(s) == s
  {
  }

  /** clean_filename is idempotent. */
  lemma CleanFilenameIdempotent(filename: string)
    ensures CleanFilename(CleanFilename(filename)) == CleanFilename(filename)
  {
    var r := CleanFilename(filename);
    ReplaceFixpoint(r);
    CollapseFixpoint(r);
  }

  // -----------------------------------------------------------------------
  // The words of a name: `' '.join(s.split())`
  // -----------------------------------------------------------------------

  /** The run of non-whitespace characters at the front of `s`. */
  function FirstWord(s: string): (w: string)
    ensures |w| <= |s| && w == s[..|w|]
    ensures forall i :: 0 <= i < |w| ==> !IsSpace(w[i])
    ensures |w| < |s| ==> IsSpace(s[|w|])
  {
    if |s| == 0 || IsSpace(s[0]) then [] else [s[0]] + FirstWord(s[1..])
  }

  /** `str.split()` with no argument: the maximal runs of non-whitespace
      characters, in order. */
  function Words(s: string): seq<string>
    decreases |s|
  {
    if |s| == 0 then []
    else if IsSpace(s[0]) then Words(s[1..])
    else
      var w := FirstWord(s);
      [w] + Words(s[|w|..])
  }

  /** `' '.join(words)` */
  function JoinWords(words: seq<string>): string {
    if |words| == 0 then []
    else if |words| == 1 then words[0]
    else words[0] + [' '] + JoinWords(words[1..])
  }

  /** Collapsing passes a leading word through unchanged. */
  lemma {:induction false} CollapseWordPrefix(a: string, b: string)
    requires forall i :: 0 <= i < |a| ==> !IsSpace(a[i])
    ensures CollapseSpaces(a + b) == a + CollapseSpaces(b)
    decreases |a|
  {
    if |a| == 0 {
      assert a + b == b;
    } else {
      var ab := a + b;
      var t := a[1..];
      assert ab[0] == a[0];
      assert ab[1..] == t + b;
      assert CollapseSpaces(ab) == [a[0]] + CollapseSpaces(t + b);
      CollapseWordPrefix(t, b);
      assert a == [a[0]] + t;
      ConcatAssoc([a[0]], t, CollapseSpaces(b));
    }
  }

  /** Leading whitespace has no words. */
  lemma {:induction false} WordsDropSpaces(s: string)
    ensures Words(DropSpaces(s)) == Words(s)
  {
    if |s| > 0 && IsSpace(s[0]) {
      WordsDropSpaces(s[1..]);
    }
  }

  /** A string with no words is all whitespace. */
  lemma {:induction false} NoWordsAllSpaces(s: string)
    requires Words(s) == []
    ensures forall i :: 0 <= i < |s| ==> IsSpace(s[i])
  {
    if |s| > 0 {
      NoWordsAllSpaces(s[1..]);
      assert forall i :: 1 <= i < |s| ==> s[i] == s[1..][i - 1];
    }
  }

  /** strip() ignores a leading ' '. */
  lemma StripSpaceCons(t: string)
    ensures Strip([' '] + t) == Strip(t)
  {
    var s := [' '] + t;
    assert s[1..] == t;
  }

  /** Collapsing and stripping a string, or the string without its leading
      whitespace, give the same result. */
  lemma StripCollapseDropSpaces(s: string)
    ensures Strip(CollapseSpaces(DropSpaces(s))) == Strip(CollapseSpaces(s))
  {
    if |s| > 0 && IsSpace(s[0]) {
      assert DropSpaces(s) == DropSpaces(s[1..]);
      StripSpaceCons(CollapseSpaces(DropSpaces(s)));
    }
  }

  /** Whitespace at the end of a string that does not start with
      whitespace is what strip() removes from the end. */
  lemma {:induction false} DropTrailingSpacesAppend(a: string, b: string)
    requires |b| > 0 && !IsSpace(b[0])
    ensures DropTrailingSpaces(a + b) == a + DropTrailingSpaces(b)
    decreases |b|
  {
    var ab := a + b;
    assert ab[|ab| - 1] == b[|b| - 1];
    if IsSpace(b[|b| - 1]) {
      var init := b[..|b| - 1];
      assert ab[..|ab| - 1] == a + init;
      DropTrailingSpacesAppend(a, init);
    }
  }

  /** A word followed by whitespace only strips to the word. */
  lemma StripWordThenSpaces(w: string, t: string)
    requires |w| > 0 && forall i :: 0 <= i < |w| ==> !IsSpace(w[i])
    requires forall i :: 0 <= i < |t| ==> IsSpace(t[i])
    ensures Strip(w + t) == w
  {
    var wt := w + t;
    assert wt[0] == w[0];
    assert DropSpaces(wt) == wt;
    DropTrailingSpacesAppend([], wt);
    DropTrailingAll(w, t);
  }

  lemma {:induction false} DropTrailingAll(w: string, t: string)
    requires |w| > 0 && !IsSpace(w[|w| - 1])
    requires forall i :: 0 <= i < |t| ==> IsSpace(t[i])
    ensures DropTrailingSpaces(w + t) == w
    decreases |t|
  {
    if |t| == 0 {
      assert w + t == w;
    } else {
      var wt := w + t;
      assert wt[|wt| - 1] == t[|t| - 1];
      assert wt[..|wt| - 1] == w + t[..|t| - 1];
      DropTrailingAll(w, t[..|t| - 1]);
    }
  }

  lemma ConcatAssoc(a: string, b: string, c: string)
    ensures a + (b + c) == (a + b) + c
  {
  }

  /** A word, one ' ' and a string that starts with a word: strip() only
      removes whitespace from the end. */
  lemma StripWordSpaceRest(w: string, y: string)
    requires |w| > 0 && !IsSpace(w[0])
    requires |y| > 0 && !IsSpace(y[0])
    ensures Strip(w + ([' '] + y)) == w + [' '] + DropTrailingSpaces(y)
  {
    var z := w + ([' '] + y);
    var head := w + [' '];
    assert z[0] == w[0];
    assert DropSpaces(z) == z;
    assert Strip(z) == DropTrailingSpaces(z);
    ConcatAssoc(w, [' '], y);
    DropTrailingSpacesAppend(head, y);
  }

  /** Collapsing whitespace and stripping is `' '.join(s.split())`. */
  lemma {:induction false} StripCollapseWords(s: string)
    ensures Strip(CollapseSpaces(s)) == JoinWords(Words(s))
    decreases |s|
  {
    if |s| == 0 {
    } else if IsSpace(s[0]) {
      var t := s[1..];
      StripCollapseWords(t);
      assert CollapseSpaces(s) == [' '] + CollapseSpaces(DropSpaces(t));
      StripSpaceCons(CollapseSpaces(DropSpaces(t)));
      StripCollapseDropSpaces(t);
    } else {
      var w := FirstWord(s);
      var rest := s[|w|..];
      assert s == w + rest;
      CollapseWordPrefix(w, rest);
      assert Words(s) == [w] + Words(rest);
      if Words(rest) == [] {
        LastWord(w, rest);
      } else {
        StripCollapseWords(rest);
        NextWord(w, rest);
      }
    }
  }

  /** The last word of a string: what follows it strips away. */
  lemma LastWord(w: string, rest: string)
    requires |w| > 0 && forall i :: 0 <= i < |w| ==> !IsSpace(w[i])
    requires Words(rest) == []
    ensures Strip(w + CollapseSpaces(rest)) == JoinWords([w] + Words(rest))
  {
    NoWordsAllSpaces(rest);
    CollapseAllSpaces(rest);
    StripWordThenSpaces(w, CollapseSpaces(rest));
    var words := [w] + Words(rest);
    assert |words| == 1 && words[0] == w;
  }

  /** A word followed by more words: one ' ' separates it from the rest. */
  lemma NextWord(w: string, rest: string)
    requires |w| > 0 && !IsSpace(w[0])
    requires |rest| > 0 && IsSpace(rest[0])
    requires Words(rest) != []
    requires Strip(CollapseSpaces(rest)) == JoinWords(Words(rest))
    ensures Strip(w + CollapseSpaces(rest)) == JoinWords([w] + Words(rest))
  {
    var body := DropSpaces(rest);
    WordsDropSpaces(rest);
    assert body == DropSpaces(rest[1..]);
    assert |body| > 0;
    var y := CollapseSpaces(body);
    assert CollapseSpaces(rest) == [' '] + y;
    StripSpaceCons(y);
    assert Strip(y) == DropTrailingSpaces(y);
    StripWordSpaceRest(w, y);
    var words := [w] + Words(rest);
    assert words[0] == w && words[1..] == Words(rest);
  }

  /** Whitespace only collapses to at most one ' '. */
  lemma CollapseAllSpaces(s: string)
    requires forall i :: 0 <= i < |s| ==> IsSpace(s[i])
    ensures forall i :: 0 <= i < |CollapseSpaces(s)| ==> IsSpace(CollapseSpaces(s)[i])
  {
    if |s| > 0 {
      var rest := DropSpaces(s[1..]);
      assert rest == [];
      assert CollapseSpaces(s) == [' '];
    }
  }

  /** clean_filename is `' '.join(s.split())` of the substituted name:
      each run of whitespace between two words becomes exactly one ' ', and
      the whitespace at either end goes. */
  lemma CleanFilenameWords(filename: string)
    ensures CleanFilename(filename) == JoinWords(Words(ReplaceIllegal(filename)))
  {
    StripCollapseWords(ReplaceIllegal(filename));
  }

  /** How often `c` occurs in `s`. */
  function CountChar(s: string, c: char): nat {
    if |s| == 0 then 0 else (if s[0] == c then 1 else 0) + CountChar(s[1..], c)
  }

  lemma {:induction false} CountVisible(s: string, c: char)
    requires !IsSpace(c)
    ensures CountChar(Visible(s), c) == CountChar(s, c)
  {
    if |s| > 0 {
      CountVisible(s[1..], c);
      CountAppend(if IsSpace(s[0]) then [] else [s[0]], Visible(s[1..]), c);
    }
  }

  lemma {:induction false} CountAppend(a: string, b: string, c: char)
    ensures CountChar(a + b, c) == CountChar(a, c) + CountChar(b, c)
  {
    if |a| == 0 {
      assert a + b == b;
    } else {
      assert (a + b)[0] == a[0];
      CountAppend(a[1..], b, c);
      assert (a + b)[1..] == a[1..] + b;
    }
  }

  lemma {:induction false} ReplaceKeepsLegal(s: string, c: char)
    requires !IsIllegal(c) && c != '_'
    ensures CountChar(ReplaceIllegal(s), c) == CountChar(s, c)
  {
    if |s| > 0 {
      ReplaceKeepsLegal(s[1..], c);
      var r := ReplaceIllegal(s);
      assert r == [r[0]] + ReplaceIllegal(s[1..]);
      assert r[0] == c <==> s[0] == c;
    }
  }

  /** clean_filename keeps every occurrence of a character that neither
      substitution touches. */
  lemma CleanFilenameKeeps(filename: string, c: char)
    requires !IsSpace(c) && !IsIllegal(c) && c != '_'
    ensures CountChar(CleanFilename(filename), c) == CountChar(filename, c)
  {
    var r := CleanFilename(filename);
    var replaced := ReplaceIllegal(filename);
    CountVisible(r, c);
    CountVisible(replaced, c);
    ReplaceKeepsLegal(filename, c);
  }

  /** Dots are never removed: clean_filename keeps every '.' of its input. */
  lemma DotsKept(filename: string)
    ensures CountChar(CleanFilename(filename), '.') == CountChar(filename, '.')
  {
    CleanFilenameKeeps(filename, '.');
  }
}
