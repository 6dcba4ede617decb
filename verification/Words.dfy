/** `str::split_whitespace`, `str::trim` and `join(" ")`, and how they count words. */
module Words {

  /** `char::is_whitespace`: the Unicode White_Space property. */
  predicate IsWhitespace(c: char) {
    var n := c as int;
    9 <= n <= 13 || n == 0x20 || n == 0x85 || n == 0xA0 || n == 0x1680 || 0x2000 <= n <= 0x200A
    || n == 0x2028 || n == 0x2029 || n == 0x202F || n == 0x205F || n == 0x3000
  }

  /** The 25 characters with that property, in order. */
  const WHITE_SPACE: string :=
    "\U{0009}\U{000A}\U{000B}\U{000C}\U{000D}\U{0020}\U{0085}\U{00A0}\U{1680}"
    + "\U{2000}\U{2001}\U{2002}\U{2003}\U{2004}\U{2005}\U{2006}\U{2007}\U{2008}\U{2009}\U{200A}"
    + "\U{2028}\U{2029}\U{202F}\U{205F}\U{3000}"

  lemma WhitespaceExact(c: char)
    ensures |WHITE_SPACE| == 25
    ensures IsWhitespace(c) <==> c in WHITE_SPACE
  {
    forall i | 0 <= i < |WHITE_SPACE|
      ensures IsWhitespace(WHITE_SPACE[i])
    {
    }
    var n := c as int;
    if 9 <= n <= 13 {
      assert WHITE_SPACE[n - 9] == c;
    } else if 0x2000 <= n <= 0x200A {
      assert WHITE_SPACE[n - 0x2000 + 9] == c;
    } else if IsWhitespace(c) {
      assert c in [WHITE_SPACE[5], WHITE_SPACE[6], WHITE_SPACE[7], WHITE_SPACE[8], WHITE_SPACE[20],
                   WHITE_SPACE[21], WHITE_SPACE[22], WHITE_SPACE[23], WHITE_SPACE[24]];
    }
  }

  /** All whitespace, the empty text included. */
  predicate Blank(s: string) {
    forall i :: 0 <= i < |s| ==> IsWhitespace(s[i])
  }

  /** Length of the leading run of non-whitespace. */
  function WordLength(s: string): (n: nat)
    ensures n <= |s|
    ensures n < |s| ==> IsWhitespace(s[n])
  {
    if s == "" || IsWhitespace(s[0]) then 0 else 1 + WordLength(s[1..])
  }

  function SplitWhitespace(s: string): seq<string>
    decreases |s|
  {
    if s == "" then []
    else if IsWhitespace(s[0]) then SplitWhitespace(s[1..])
    else [s[..WordLength(s)]] + SplitWhitespace(s[WordLength(s)..])
  }

  function WordCount(s: string): nat {
    |SplitWhitespace(s)|
  }

  function TrimStart(s: string): string {
    if s != "" && IsWhitespace(s[0]) then TrimStart(s[1..]) else s
  }

  function TrimEnd(s: string): string {
    if s != "" && IsWhitespace(s[|s| - 1]) then TrimEnd(s[..|s| - 1]) else s
  }

  function Trim(s: string): string {
    TrimEnd(TrimStart(s))
  }

  /** `parts.join(" ")`. */
  function JoinWithSpace(parts: seq<string>): string {
    if parts == [] then ""
    else if |parts| == 1 then parts[0]
    else parts[0] + " " + JoinWithSpace(parts[1..])
  }

  function SumWordCounts(parts: seq<string>): nat {
    if parts == [] then 0 else WordCount(parts[0]) + SumWordCounts(parts[1..])
  }

  // ------------------------------------------------------------- what a word is

  predicate StartsWord(s: string, i: nat)
    requires i < |s|
  {
    !IsWhitespace(s[i]) && (i == 0 || IsWhitespace(s[i - 1]))
  }

  function WordStarts(s: string): set<nat> {
    set i | 0 <= i < |s| && StartsWord(s, i)
  }

  lemma {:induction false} WordLengthOfPrefix(a: string, b: string)
    requires b == "" || WordLength(a) < |a| || IsWhitespace(b[0])
    ensures WordLength(a + b) == WordLength(a)
  {
    if a == "" {
      assert a + b == b;
    } else if !IsWhitespace(a[0]) {
      assert (a + b)[1..] == a[1..] + b;
      WordLengthOfPrefix(a[1..], b);
    }
  }

  /** A whitespace character separates: the words of both sides, in order. */
  lemma {:induction false} SplitAtWhitespace(a: string, w: char, b: string)
    requires IsWhitespace(w)
    ensures SplitWhitespace(a + [w] + b) == SplitWhitespace(a) + SplitWhitespace(b)
    decreases |a|
  {
    var s := a + [w] + b;
    if a == "" {
      assert s[1..] == b;
    } else if IsWhitespace(a[0]) {
      assert s[1..] == a[1..] + [w] + b;
      SplitAtWhitespace(a[1..], w, b);
    } else {
      var n := WordLength(a);
      SplitAtWhitespace(a[n..], w, b);
      FirstWord(a, w, b);
      assert SplitWhitespace(a) == [a[..n]] + SplitWhitespace(a[n..]);
    }
  }

  lemma FirstWord(a: string, w: char, b: string)
    requires a != "" && !IsWhitespace(a[0]) && IsWhitespace(w)
    ensures SplitWhitespace(a + [w] + b)
            == [a[..WordLength(a)]] + SplitWhitespace(a[WordLength(a)..] + [w] + b)
  {
    var s, n := a + [w] + b, WordLength(a);
    assert s == a + ([w] + b);
    WordLengthOfPrefix(a, [w] + b);
    assert s[..n] == a[..n] && s[n..] == a[n..] + [w] + b;
  }

  lemma SplitThree(a: string, b: string, c: string)
    ensures SplitWhitespace(a + " " + b + " " + c) == SplitWhitespace(a) + SplitWhitespace(b) + SplitWhitespace(c)
  {
    SplitAtWhitespace(a + [' '] + b, ' ', c);
    SplitAtWhitespace(a, ' ', b);
  }

  lemma {:induction false} SplitTrimStart(s: string)
    ensures SplitWhitespace(TrimStart(s)) == SplitWhitespace(s)
  {
    if s != "" && IsWhitespace(s[0]) {
      SplitTrimStart(s[1..]);
    }
  }

  lemma {:induction false} SplitTrimEnd(s: string)
    ensures SplitWhitespace(TrimEnd(s)) == SplitWhitespace(s)
  {
    if s != "" && IsWhitespace(s[|s| - 1]) {
      SplitTrimEnd(s[..|s| - 1]);
      SplitAtWhitespace(s[..|s| - 1], s[|s| - 1], "");
      assert s == s[..|s| - 1] + [s[|s| - 1]] + "";
    }
  }

  /** Trimming changes no word. */
  lemma SplitTrim(s: string)
    ensures SplitWhitespace(Trim(s)) == SplitWhitespace(s)
  {
    SplitTrimStart(s);
    SplitTrimEnd(TrimStart(s));
  }

  lemma {:induction false} TrimStartEmpty(s: string)
    ensures TrimStart(s) == "" <==> Blank(s)
    ensures TrimStart(s) != "" ==> !IsWhitespace(TrimStart(s)[0])
  {
    if s != "" {
      TrimStartEmpty(s[1..]);
      assert forall i :: 1 <= i < |s| ==> s[i] == s[1..][i - 1];
    }
  }

  lemma {:induction false} TrimEndKeepsFirst(s: string)
    requires s != "" && !IsWhitespace(s[0])
    ensures TrimEnd(s) != ""
  {
    if IsWhitespace(s[|s| - 1]) {
      TrimEndKeepsFirst(s[..|s| - 1]);
    }
  }

  /** Trimming leaves nothing exactly of a text that is all whitespace. */
  lemma TrimEmpty(s: string)
    ensures Trim(s) == "" <==> Blank(s)
  {
    TrimStartEmpty(s);
    if TrimStart(s) != "" {
      TrimEndKeepsFirst(TrimStart(s));
    }
  }

  predicate TrimmedAtBothEnds(s: string) {
    s != "" ==> !IsWhitespace(s[0]) && !IsWhitespace(s[|s| - 1])
  }

  lemma {:induction false} TrimEndIsPrefix(s: string)
    ensures TrimEnd(s) <= s
    ensures TrimEnd(s) != "" ==> !IsWhitespace(TrimEnd(s)[|TrimEnd(s)| - 1])
  {
    if s != "" && IsWhitespace(s[|s| - 1]) {
      TrimEndIsPrefix(s[..|s| - 1]);
    }
  }

  lemma {:induction false} TrimStartDrops(s: string)
    ensures |TrimStart(s)| <= |s| && TrimStart(s) == s[|s| - |TrimStart(s)|..]
    ensures Blank(s[..|s| - |TrimStart(s)|])
  {
    if s != "" && IsWhitespace(s[0]) {
      TrimStartDrops(s[1..]);
      var n := |s| - |TrimStart(s)|;
      assert s[..n] == [s[0]] + s[1..][..n - 1];
    }
  }

  lemma {:induction false} TrimEndDrops(s: string)
    ensures TrimEnd(s) <= s && Blank(s[|TrimEnd(s)|..])
  {
    if s != "" && IsWhitespace(s[|s| - 1]) {
      TrimEndDrops(s[..|s| - 1]);
      var n := |TrimEnd(s)|;
      assert s[n..] == s[..|s| - 1][n..] + [s[|s| - 1]];
    }
  }

  /** Trimming drops whitespace from the ends, nothing else, and all of it. */
  lemma TrimExact(s: string) returns (before: string, after: string)
    ensures s == before + Trim(s) + after && Blank(before) && Blank(after)
    ensures TrimmedAtBothEnds(Trim(s))
  {
    TrimStartDrops(s);
    TrimEndDrops(TrimStart(s));
    before, after := s[..|s| - |TrimStart(s)|], TrimStart(s)[|Trim(s)|..];
    TrimTrims(s);
  }

  /** Trimming leaves no whitespace at either end. */
  lemma TrimTrims(s: string)
    ensures TrimmedAtBothEnds(Trim(s))
  {
    TrimStartEmpty(s);
    TrimEndIsPrefix(TrimStart(s));
  }

  lemma {:induction false} TrimStartOfConcat(a: string, b: string)
    ensures TrimStart(a + b) == if Blank(a) then TrimStart(b) else TrimStart(a) + b
  {
    if a == "" {
      assert a + b == b;
    } else if IsWhitespace(a[0]) {
      assert (a + b)[1..] == a[1..] + b;
      assert a == [a[0]] + a[1..];
      assert Blank(a) <==> Blank(a[1..]);
      TrimStartOfConcat(a[1..], b);
    }
  }

  lemma {:induction false} TrimEndOfConcat(a: string, b: string)
    ensures TrimEnd(a + b) == if Blank(b) then TrimEnd(a) else a + TrimEnd(b)
  {
    if b == "" {
      assert a + b == a;
    } else if IsWhitespace(b[|b| - 1]) {
      var init := b[..|b| - 1];
      assert (a + b)[..|a + b| - 1] == a + init;
      assert b == init + [b[|b| - 1]];
      assert Blank(b) <==> Blank(init);
      TrimEndOfConcat(a, init);
    }
  }

  lemma BlankSnoc(s: string, w: char)
    requires IsWhitespace(w)
    ensures Blank(s + [w]) <==> Blank(s)
  {
    assert (s + [w])[..|s|] == s;
  }

  /** What trimming leaves of a text in front of a visible character. */
  lemma TrimBefore(s: string, rest: string)
    requires rest != "" && !IsWhitespace(rest[0])
    ensures TrimStart(s + " " + rest) == (if Blank(s) then "" else TrimStart(s) + " ") + rest
  {
    TrimStartOfConcat(s + " ", rest);
    TrimStartOfConcat(s, " ");
    BlankSnoc(s, ' ');
  }

  /** And of a trimmed text behind one. */
  lemma TrimAfter(head: string, s: string)
    requires head != "" && !IsWhitespace(head[|head| - 1])
    ensures TrimEnd(head + " " + Trim(s)) == head + if Blank(s) then "" else " " + Trim(s)
  {
    TrimEmpty(s);
    TrimTrims(s);
    TrimEndOfConcat(head + " ", Trim(s));
    TrimEndOfConcat(head, " ");
    if Trim(s) == "" {
      assert head + " " + Trim(s) == head + " ";
    } else {
      assert !Blank(Trim(s));
    }
  }

  /** Counting the words of a joined text is summing the counts of its parts. */
  lemma {:induction false} WordCountOfJoin(parts: seq<string>)
    ensures WordCount(JoinWithSpace(parts)) == SumWordCounts(parts)
  {
    if |parts| == 1 {
      assert SumWordCounts(parts[1..]) == 0;
    } else if |parts| > 1 {
      WordCountOfJoin(parts[1..]);
      SplitAtWhitespace(parts[0], ' ', JoinWithSpace(parts[1..]));
    }
  }

  lemma {:induction false} WordCountSnoc(s: string, c: char)
    ensures WordCount(s + [c])
            == WordCount(s) + if !IsWhitespace(c) && (s == "" || IsWhitespace(s[|s| - 1])) then 1 else 0
    decreases |s|
  {
    var t := s + [c];
    if s == "" {
      assert t == [c] && t[1..] == "";
      if !IsWhitespace(c) {
        WholeWord(t);
      }
    } else if IsWhitespace(s[0]) {
      assert t[1..] == s[1..] + [c];
      WordCountSnoc(s[1..], c);
    } else if WordLength(s) < |s| || IsWhitespace(c) {
      var n := WordLength(s);
      WordLengthOfPrefix(s, [c]);
      assert t[..n] == s[..n] && t[n..] == s[n..] + [c];
      WordCountSnoc(s[n..], c);
      if n == |s| {
        NoWhitespaceIn(s);
      }
    } else {
      NoWhitespaceIn(s);
      NoWhitespaceIn(t);
      WholeWord(s);
      WholeWord(t);
    }
  }

  lemma {:induction false} NoWhitespaceIn(s: string)
    ensures WordLength(s) == |s| <==> forall i :: 0 <= i < |s| ==> !IsWhitespace(s[i])
  {
    if s != "" {
      NoWhitespaceIn(s[1..]);
      assert forall i :: 1 <= i < |s| ==> s[i] == s[1..][i - 1];
    }
  }

  lemma WholeWord(s: string)
    requires s != "" && WordLength(s) == |s|
    ensures SplitWhitespace(s) == [s]
  {
    hide IsWhitespace;
    assert s[..|s|] == s && s[|s|..] == "";
    assert SplitWhitespace(s) == [s[..WordLength(s)]] + SplitWhitespace(s[WordLength(s)..]);
  }

  /** Splitting is determined by three rules: nothing has no words, a text
      without whitespace is one word, and whitespace separates. */
  lemma SplitExact(a: string, w: char, b: string)
    requires IsWhitespace(w)
    ensures SplitWhitespace("") == []
    ensures a != "" && (forall i :: 0 <= i < |a| ==> !IsWhitespace(a[i])) ==> SplitWhitespace(a) == [a]
    ensures SplitWhitespace(a + [w] + b) == SplitWhitespace(a) + SplitWhitespace(b)
  {
    NoWhitespaceIn(a);
    if a != "" && WordLength(a) == |a| {
      WholeWord(a);
    }
    SplitAtWhitespace(a, w, b);
  }

  lemma WordStartsSnoc(s: string)
    requires s != ""
    ensures WordStarts(s) == WordStarts(s[..|s| - 1]) + if StartsWord(s, |s| - 1) then {|s| - 1} else {}
  {
  }

  /** The count is the number of positions where a word starts: a character
      that is not whitespace, first or after whitespace. */
  lemma {:induction false} WordCountIsStarts(s: string)
    ensures WordCount(s) == |WordStarts(s)|
  {
    if s != "" {
      var n := |s| - 1;
      var t := s[..n];
      assert s == t + [s[n]];
      WordCountIsStarts(t);
      WordCountSnoc(t, s[n]);
      WordStartsSnoc(s);
      assert n !in WordStarts(t);
    }
  }
}
