/** The string operations the pipeline relies on: `char.IsWhiteSpace`, `Trim`,
    `ToLower`, `StartsWith`, `Split(' ')` and `string.Join(" ", ...)`. */
module Text {

  /** The characters .NET's `char.IsWhiteSpace` accepts: the Unicode space,
      line and paragraph separators and the controls U+0009..U+000D, U+0085. */
  predicate IsWhiteSpace(c: char) {
    || ('\U{9}' <= c <= '\U{D}')
    || c == ' ' || c == '\U{85}' || c == '\U{A0}' || c == '\U{1680}'
    || ('\U{2000}' <= c <= '\U{200A}')
    || c == '\U{2028}' || c == '\U{2029}' || c == '\U{202F}' || c == '\U{205F}' || c == '\U{3000}'
  }

  /** Drops the leading white space. */
  function TrimStart(s: string): string {
    if |s| > 0 && IsWhiteSpace(s[0]) then TrimStart(s[1..]) else s
  }

  /** Drops the trailing white space. */
  function TrimEnd(s: string): string {
    if |s| > 0 && IsWhiteSpace(s[|s| - 1]) then TrimEnd(s[..|s| - 1]) else s
  }

  /** `string.Trim()`. */
  function Trim(s: string): string {
    TrimEnd(TrimStart(s))
  }

  /** TrimStart removes a run of white space at the front and nothing else. */
  lemma {:induction false} TrimStartDropsLeadingWhiteSpace(s: string)
    ensures var r := TrimStart(s);
            && |r| <= |s| && r == s[|s| - |r|..]
            && (forall i :: 0 <= i < |s| - |r| ==> IsWhiteSpace(s[i]))
            && (r != [] ==> !IsWhiteSpace(r[0]))
  {
    if |s| > 0 && IsWhiteSpace(s[0]) {
      var t := s[1..];
      TrimStartDropsLeadingWhiteSpace(t);
      var r := TrimStart(t);
      assert TrimStart(s) == r;
      assert t[|t| - |r|..] == s[|s| - |r|..];
      forall i | 0 <= i < |s| - |r| ensures IsWhiteSpace(s[i]) {
        if i > 0 { assert s[i] == t[i - 1]; }
      }
    }
  }

  /** TrimEnd removes a run of white space at the back and nothing else. */
  lemma {:induction false} TrimEndDropsTrailingWhiteSpace(s: string)
    ensures var r := TrimEnd(s);
            && |r| <= |s| && r == s[..|r|]
            && (forall i :: |r| <= i < |s| ==> IsWhiteSpace(s[i]))
            && (r != [] ==> !IsWhiteSpace(r[|r| - 1]))
  {
    if |s| > 0 && IsWhiteSpace(s[|s| - 1]) {
      var t := s[..|s| - 1];
      TrimEndDropsTrailingWhiteSpace(t);
      var r := TrimEnd(t);
      assert TrimEnd(s) == r;
      assert t[..|r|] == s[..|r|];
      forall i | |r| <= i < |s| ensures IsWhiteSpace(s[i]) {
        if i < |s| - 1 { assert s[i] == t[i]; }
      }
    }
  }

  /** Trim returns the middle slice of `s` that starts after the leading
      white space: everything it drops is white space, neither end of what it
      keeps is white space, and a string whose ends are not white space is
      left as it is. */
  lemma {:induction false} TrimProperties(s: string)
    ensures var r, a := Trim(s), |s| - |TrimStart(s)|;
            && 0 <= a && a + |r| <= |s| && r == s[a..a + |r|]
            && (forall k :: 0 <= k < a ==> IsWhiteSpace(s[k]))
            && (forall k :: a + |r| <= k < |s| ==> IsWhiteSpace(s[k]))
            && (r != [] ==> !IsWhiteSpace(r[0]) && !IsWhiteSpace(r[|r| - 1]))
            && (s == [] || (!IsWhiteSpace(s[0]) && !IsWhiteSpace(s[|s| - 1])) ==> r == s)
  {
    var t := TrimStart(s);
    TrimStartDropsLeadingWhiteSpace(s);
    TrimEndDropsTrailingWhiteSpace(t);
    var r, a := Trim(s), |s| - |t|;
    assert r == t[..|r|];
    assert r == s[a..a + |r|];
    forall k | a + |r| <= k < |s| ensures IsWhiteSpace(s[k]) {
      assert s[k] == t[k - a];
    }
  }

  /** The lower-case form of an ASCII capital; every other character is kept. */
  function LowerChar(c: char): char {
    if 'A' <= c <= 'Z' then (c as int + 32) as char else c
  }

  function ToLower(s: string): string {
    seq(|s|, i requires 0 <= i < |s| => LowerChar(s[i]))
  }

  /** Ordinal `s.StartsWith(prefix)`. */
  predicate StartsWith(s: string, prefix: string) {
    |prefix| <= |s| && s[..|prefix|] == prefix
  }

  /** `s.Split(' ')`: the pieces between single spaces, empty pieces included. */
  function Split(s: string): (r: seq<string>)
    ensures |r| >= 1
    ensures forall i :: 0 <= i < |r| ==> ' ' !in r[i]
  {
    if |s| == 0 then [""]
    else
      var rest := Split(s[1..]);
      if s[0] == ' ' then [""] + rest else [[s[0]] + rest[0]] + rest[1..]
  }

  /** Two spaces in a row leave an empty piece between them. */
  lemma SplitOfDoubleSpace()
    ensures Split("x  y") == ["x", "", "y"]
  {
    assert "y"[1..] == "" && Split("") == [""] && ['y'] + "" == "y";
    assert Split("y") == ["y"];
    assert " y"[1..] == "y" && Split(" y") == ["", "y"];
    assert "  y"[1..] == " y" && Split("  y") == ["", "", "y"];
    assert "x  y"[1..] == "  y" && ['x'] + "" == "x";
  }

  /** `string.Join(" ", words)`. */
  function Join(words: seq<string>): string {
    if |words| == 0 then ""
    else if |words| == 1 then words[0]
    else words[0] + " " + Join(words[1..])
  }

  /** "x", "Al" and "y" joined with single spaces. */
  lemma JoinOfThree(words: seq<string>)
    requires words == ["x", "Al", "y"]
    ensures Join(words) == "x Al y"
  {
    assert words[1..][1..] == ["y"] && Join(["y"]) == "y";
    assert words[1..] == ["Al", "y"] && Join(["Al", "y"]) == "Al" + " " + "y" == "Al y";
    assert Join(words) == "x" + " " + "Al y" == "x Al y";
  }

  lemma {:induction false} JoinExtendsHead(a: string, words: seq<string>)
    requires |words| >= 1
    ensures Join([a + words[0]] + words[1..]) == a + Join(words)
  {
    var w := [a + words[0]] + words[1..];
    if |words| == 1 {
      assert w == [a + words[0]];
    } else {
      assert w[0] == a + words[0];
      assert w[1..] == words[1..];
      var rest := Join(words[1..]);
      assert Join(w) == w[0] + " " + rest;
      assert Join(words) == words[0] + " " + rest;
      assert (a + words[0]) + " " + rest == a + (words[0] + " " + rest);
    }
  }

  /** Splitting on ' ' and joining with " " gives the phrase back, character
      for character, because empty pieces are kept. */
  lemma {:induction false} JoinSplit(s: string)
    ensures Join(Split(s)) == s
  {
    if |s| > 0 {
      var rest := Split(s[1..]);
      JoinSplit(s[1..]);
      if s[0] == ' ' {
        assert ([""] + rest)[1..] == rest;
      } else {
        JoinExtendsHead([s[0]], rest);
      }
    }
  }

  lemma {:induction false} SplitAfterWord(w: string, t: string)
    requires ' ' !in w
    ensures Split(w + t) == [w + Split(t)[0]] + Split(t)[1..]
  {
    if |w| > 0 {
      SplitAfterWord(w[1..], t);
      var parts := Split(t);
      var rest := Split(w[1..] + t);
      assert (w + t)[1..] == w[1..] + t;
      assert (w + t)[0] == w[0] && w[0] != ' ';
      assert rest[0] == w[1..] + parts[0] && rest[1..] == parts[1..];
      assert Split(w + t) == [[w[0]] + rest[0]] + rest[1..];
      assert [w[0]] + (w[1..] + parts[0]) == w + parts[0];
    } else {
      var parts := Split(t);
      assert w + t == t && w + parts[0] == parts[0];
      assert [parts[0]] + parts[1..] == parts;
    }
  }

  /** Joining words that contain no space and splitting again gives the words
      back: the token count and every token survive. */
  lemma {:induction false} SplitJoin(words: seq<string>)
    requires |words| >= 1
    requires forall i :: 0 <= i < |words| ==> ' ' !in words[i]
    ensures Split(Join(words)) == words
  {
    if |words| == 1 {
      SplitAfterWord(words[0], "");
      assert Split("") == [""];
      assert words[0] + "" == words[0];
      assert Join(words) == words[0];
    } else {
      var tail := Join(words[1..]);
      SplitJoin(words[1..]);
      SplitAfterWord(words[0], " " + tail);
      assert (" " + tail)[0] == ' ' && (" " + tail)[1..] == tail;
      var parts := Split(" " + tail);
      assert parts == [""] + words[1..];
      assert parts[0] == "" && parts[1..] == words[1..];
      assert Join(words) == words[0] + (" " + tail);
      assert words[0] + "" == words[0];
      assert words == [words[0]] + words[1..];
    }
  }
}
