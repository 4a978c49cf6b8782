/**
 The paragraph normaliser of the submit handler: the raw text block is split on
 line feeds, every line is trimmed, and empty lines are dropped, in order.
 */
module Paragraphs {

  const Newline: char := '\n'

  /**
   The characters `String.prototype.trim` strips: the white space of ECMAScript
   (tab, vertical tab, form feed, byte order mark and every space separator) and
   its line terminators (line feed, carriage return, line and paragraph separator).
   */
  predicate IsSpace(c: char) {
    || c == '\t' || c == '\U{000B}' || c == '\U{000C}' || c == '\U{FEFF}'
    || c == '\n' || c == '\r' || c == '\U{2028}' || c == '\U{2029}'
    || c == ' ' || c == '\U{00A0}' || c == '\U{1680}' || c in "\U{2000}\U{2001}\U{2002}\U{2003}\U{2004}\U{2005}\U{2006}\U{2007}\U{2008}\U{2009}\U{200A}"
    || c == '\U{202F}' || c == '\U{205F}' || c == '\U{3000}'
  }

  /** No leading and no trailing white space. */
  predicate IsTrimmed(s: string) {
    s == [] || (!IsSpace(s[0]) && !IsSpace(s[|s| - 1]))
  }

  predicate AllSpace(s: string) {
    forall k :: 0 <= k < |s| ==> IsSpace(s[k])
  }

  /** `t` is `s` with only white space cut from its two ends. */
  predicate InfixOf(s: string, t: string) {
    exists a, b :: 0 <= a <= b <= |s| && t == s[a..b] && AllSpace(s[..a]) && AllSpace(s[b..])
  }

  /** Number of line feeds in `s`. */
  function CountNewlines(s: string): nat {
    if |s| == 0 then 0
    else (if s[0] == Newline then 1 else 0) + CountNewlines(s[1..])
  }

  /** `pieces.join('\n')`: the inverse of `Split`. */
  function Join(pieces: seq<string>): string {
    if |pieces| == 0 then ""
    else if |pieces| == 1 then pieces[0]
    else pieces[0] + [Newline] + Join(pieces[1..])
  }

  /** `s.split('\n')`: the maximal line-feed-free pieces, one more than there are line feeds. */
  function Split(s: string): (r: seq<string>)
    ensures |r| == CountNewlines(s) + 1
    ensures forall k :: 0 <= k < |r| ==> Newline !in r[k]
    decreases |s|
  {
    if |s| == 0 then [""]
    else
      var rest := Split(s[1..]);
      if s[0] == Newline then [""] + rest
      else [[s[0]] + rest[0]] + rest[1..]
  }

  /** Joining the pieces back with line feeds gives the original text. */
  lemma {:induction false} JoinSplit(s: string)
    ensures Join(Split(s)) == s
    decreases |s|
  {
    if |s| > 0 {
      var rest := Split(s[1..]);
      JoinSplit(s[1..]);
      if s[0] != Newline {
        JoinConsHead([s[0]], rest);
      }
      assert s == [s[0]] + s[1..];
    }
  }

  /** Prepending text to the first piece prepends it to the joined text. */
  lemma {:induction false} JoinConsHead(x: string, pieces: seq<string>)
    requires |pieces| >= 1
    ensures Join([x + pieces[0]] + pieces[1..]) == x + Join(pieces)
  {
    var ps := [x + pieces[0]] + pieces[1..];
    if |pieces| > 1 {
      assert ps[1..] == pieces[1..];
      calc {
        Join(ps);
        (x + pieces[0]) + [Newline] + Join(pieces[1..]);
        x + (pieces[0] + [Newline] + Join(pieces[1..]));
      }
    }
  }

  /** A line-feed-free text is a single piece. */
  lemma {:induction false} SplitSingle(p: string)
    requires Newline !in p
    ensures Split(p) == [p]
    decreases |p|
  {
    if |p| > 0 {
      SplitSingle(p[1..]);
      assert p == [p[0]] + p[1..];
    }
  }

  /** Splitting `p + "\n" + t` with `p` line-feed free yields `p` and then the pieces of `t`. */
  lemma {:induction false} SplitAfterLine(p: string, t: string)
    requires Newline !in p
    ensures Split(p + [Newline] + t) == [p] + Split(t)
    decreases |p|
  {
    var s := p + [Newline] + t;
    if |p| == 0 {
      assert s[1..] == t;
    } else {
      assert s[1..] == p[1..] + [Newline] + t;
      SplitAfterLine(p[1..], t);
      assert p == [p[0]] + p[1..];
    }
  }

  /** Splitting a join of line-feed-free pieces recovers the pieces. */
  lemma {:induction false} SplitJoin(pieces: seq<string>)
    requires |pieces| >= 1
    requires forall k :: 0 <= k < |pieces| ==> Newline !in pieces[k]
    ensures Split(Join(pieces)) == pieces
    decreases |pieces|
  {
    if |pieces| == 1 {
      SplitSingle(pieces[0]);
    } else {
      SplitAfterLine(pieces[0], Join(pieces[1..]));
      SplitJoin(pieces[1..]);
      assert pieces == [pieces[0]] + pieces[1..];
    }
  }

  /** Leading white space removed: `s` minus a prefix of white space, starting with a non-space. */
  function TrimStart(s: string): (r: string)
    ensures |r| <= |s| && r == s[|s| - |r|..]
    ensures forall k :: 0 <= k < |s| - |r| ==> IsSpace(s[k])
    ensures r == [] || !IsSpace(r[0])
    decreases |s|
  {
    if |s| > 0 && IsSpace(s[0]) then
      var r := TrimStart(s[1..]);
      assert s[1..][|s| - 1 - |r|..] == s[|s| - |r|..];
      r
    else s
  }

  /** Trailing white space removed: `s` minus a suffix of white space, ending with a non-space. */
  function TrimEnd(s: string): (r: string)
    ensures |r| <= |s| && r == s[..|r|]
    ensures forall k :: |r| <= k < |s| ==> IsSpace(s[k])
    ensures r == [] || !IsSpace(r[|r| - 1])
    decreases |s|
  {
    if |s| > 0 && IsSpace(s[|s| - 1]) then
      var r := TrimEnd(s[..|s| - 1]);
      assert s[..|s| - 1][..|r|] == s[..|r|];
      r
    else s
  }

  /** `s.trim()`: the trimmed infix of `s`; a trimmed text is left as it is. */
  function Trim(s: string): (r: string)
    ensures IsTrimmed(r)
    ensures |r| <= |s|
    ensures forall c :: c in r ==> c in s
    ensures IsTrimmed(s) ==> r == s
  {
    TrimEnd(TrimStart(s))
  }

  /** What `trim` removes is white space on both sides of the result. */
  lemma TrimIsInfix(s: string)
    ensures InfixOf(s, Trim(s))
  {
    var t := TrimStart(s);
    var a := |s| - |t|;
    var u := TrimEnd(t);
    var b := a + |u|;
    assert Trim(s) == s[a..b] by {
      assert Trim(s) == u;
      assert t == s[a..];
      assert u == t[..|u|];
      assert s[a..][..|u|] == s[a..b];
    }
    assert AllSpace(s[..a]) by {
      forall k | 0 <= k < a ensures IsSpace(s[..a][k]) {
        assert s[..a][k] == s[k];
      }
    }
    assert AllSpace(s[b..]) by {
      assert t == s[a..];
      forall k | 0 <= k < |s| - b ensures IsSpace(s[b..][k]) {
        assert s[b..][k] == t[|u| + k];
      }
    }
  }

  /**
   `lines.map(p => p.trim())`: line `k` of the result is line `k` of the input
   trimmed; `TrimEachIsInfix` states what that cut removes.
   */
  function TrimEach(lines: seq<string>): (r: seq<string>)
    ensures |r| == |lines|
    ensures forall k :: 0 <= k < |r| ==> r[k] == Trim(lines[k])
    ensures forall k :: 0 <= k < |r| ==> IsTrimmed(r[k]) && |r[k]| <= |lines[k]|
    ensures forall k :: 0 <= k < |r| ==> (Newline !in lines[k] ==> Newline !in r[k])
    ensures (forall k :: 0 <= k < |lines| ==> IsTrimmed(lines[k])) ==> r == lines
    decreases |lines|
  {
    if |lines| == 0 then [] else [Trim(lines[0])] + TrimEach(lines[1..])
  }

  /** Each trimmed line is its input line with only white space cut from the two ends. */
  lemma TrimEachIsInfix(lines: seq<string>)
    ensures forall k :: 0 <= k < |lines| ==> InfixOf(lines[k], TrimEach(lines)[k])
  {
    forall k | 0 <= k < |lines| ensures InfixOf(lines[k], TrimEach(lines)[k]) {
      TrimIsInfix(lines[k]);
    }
  }

  /** Trimming line by line distributes over concatenation. */
  lemma {:induction false} TrimEachAppend(a: seq<string>, b: seq<string>)
    ensures TrimEach(a + b) == TrimEach(a) + TrimEach(b)
    decreases |a|
  {
    if |a| == 0 {
      assert a + b == b;
    } else {
      assert (a + b)[0] == a[0];
      assert (a + b)[1..] == a[1..] + b;
      TrimEachAppend(a[1..], b);
    }
  }

  /**
   `lines.filter(p => p.length > 0)`: exactly the non-empty lines survive, and
   `DropEmptyAppend` shows they keep their order.
   */
  function DropEmpty(lines: seq<string>): (r: seq<string>)
    ensures |r| <= |lines|
    ensures forall k :: 0 <= k < |r| ==> r[k] != [] && r[k] in lines
    ensures forall x :: x in r <==> x in lines && x != []
    ensures (forall k :: 0 <= k < |lines| ==> lines[k] != []) ==> r == lines
    decreases |lines|
  {
    if |lines| == 0 then []
    else
      assert lines == [lines[0]] + lines[1..];
      (if lines[0] == [] then [] else [lines[0]]) + DropEmpty(lines[1..])
  }

  /** Filtering a concatenation filters each part, in order. */
  lemma {:induction false} DropEmptyAppend(a: seq<string>, b: seq<string>)
    ensures DropEmpty(a + b) == DropEmpty(a) + DropEmpty(b)
    decreases |a|
  {
    if |a| == 0 {
      assert a + b == b;
    } else {
      assert (a + b)[0] == a[0];
      assert (a + b)[1..] == a[1..] + b;
      DropEmptyAppend(a[1..], b);
    }
  }

  /** The paragraphs one input line contributes: its trimmed text, unless that is empty. */
  function LineParagraphs(line: string): seq<string> {
    var t := Trim(line);
    if t == [] then [] else [t]
  }

  /**
   The paragraph list sent in the payload: every entry is a non-empty, trimmed,
   single line, and there are at most as many entries as input lines.
   */
  function Normalise(text: string): (r: seq<string>)
    ensures forall k :: 0 <= k < |r| ==> r[k] != [] && IsTrimmed(r[k]) && Newline !in r[k]
    ensures |r| <= CountNewlines(text) + 1
  {
    DropEmpty(TrimEach(Split(text)))
  }

  /** A text without line feeds is one paragraph, its trimmed text, or none when that is empty. */
  lemma NormaliseLine(line: string)
    requires Newline !in line
    ensures Normalise(line) == LineParagraphs(line)
  {
    SplitSingle(line);
    assert TrimEach([line]) == [Trim(line)];
    assert [Trim(line)][1..] == [];
  }

  /**
   A first line followed by a line feed contributes its own paragraphs in front of
   those of the rest: together with `NormaliseLine` this fixes `Normalise` on every text.
   */
  lemma NormaliseAfterLine(line: string, rest: string)
    requires Newline !in line
    ensures Normalise(line + [Newline] + rest) == LineParagraphs(line) + Normalise(rest)
  {
    var pieces := Split(rest);
    assert TrimEach([line]) == [Trim(line)];
    assert DropEmpty([Trim(line)]) == LineParagraphs(line) by {
      assert [Trim(line)][1..] == [];
    }
    calc {
      Normalise(line + [Newline] + rest);
      DropEmpty(TrimEach(Split(line + [Newline] + rest)));
      { SplitAfterLine(line, rest); }
      DropEmpty(TrimEach([line] + pieces));
      { TrimEachAppend([line], pieces); }
      DropEmpty([Trim(line)] + TrimEach(pieces));
      { DropEmptyAppend([Trim(line)], TrimEach(pieces)); }
      LineParagraphs(line) + DropEmpty(TrimEach(pieces));
    }
  }

  /** Normalising the normalised paragraphs joined by line feeds changes nothing. */
  lemma NormaliseIdempotent(text: string)
    ensures Normalise(Join(Normalise(text))) == Normalise(text)
  {
    var r := Normalise(text);
    if r == [] {
      assert Split(Join(r)) == [""];
      assert TrimEach([""]) == [""];
      assert DropEmpty([""]) == [];
    } else {
      SplitJoin(r);
      assert Split(Join(r)) == r;
      assert TrimEach(r) == r;
      assert DropEmpty(r) == r;
    }
  }

  /** Example: a blank line and trailing blanks disappear. */
  lemma NormaliseExample()
    ensures Normalise("Line one.\n\nLine two.  \n") == ["Line one.", "Line two."]
  {
    ExampleLines();
    FirstLineExample();
    PaddedLineExample();
    NormaliseBlankBetween("Line one.", "Line two.  ", ["Line one."], ["Line two."]);
  }

  /**
   Two lines with a blank line between them and a line feed at the end give the
   paragraphs of the first line followed by those of the second. The blank line is
   written `[]` so that each line matches the shape of `NormaliseAfterLine`.
   */
  lemma NormaliseBlankBetween(one: string, two: string, ps: seq<string>, qs: seq<string>)
    requires Newline !in one && Newline !in two
    requires LineParagraphs(one) == ps && LineParagraphs(two) == qs
    ensures Normalise(one + [Newline] + ([] + [Newline] + (two + [Newline]))) == ps + qs
  {
    var tail := two + [Newline];
    assert Normalise(tail) == qs by {
      NormaliseAfterLine(two, "");
      NormaliseLine("");
      assert tail == two + [Newline] + "";
    }
    assert Normalise([] + [Newline] + tail) == qs by {
      NormaliseAfterLine("", tail);
      assert Trim("") == "";
    }
    NormaliseAfterLine(one, [] + [Newline] + tail);
  }

  /** The example text is three lines, each ended by a line feed; the middle one, `[]`, is blank. */
  lemma ExampleLines()
    ensures "Line one.\n\nLine two.  \n" == "Line one." + [Newline] + ([] + [Newline] + ("Line two.  " + [Newline]))
    ensures Newline !in "Line one." && Newline !in "Line two.  "
  {
  }

  /** `"Line one."` is already trimmed, so it is its own paragraph. */
  lemma FirstLineExample()
    ensures LineParagraphs("Line one.") == ["Line one."]
  {
    assert IsTrimmed("Line one.");
  }

  /** `"Line two.  "` loses its two trailing blanks. */
  lemma PaddedLineExample()
    ensures LineParagraphs("Line two.  ") == ["Line two."]
  {
    var padded := "Line two.  ";
    assert padded[0] == 'L' && !IsSpace(padded[0]);
    assert TrimStart(padded) == padded;
    assert IsSpace(padded[|padded| - 1]);
    assert padded[..|padded| - 1] == "Line two. ";
    assert IsSpace("Line two. "[9]);
    assert "Line two. "[..9] == "Line two.";
    assert !IsSpace("Line two."[8]);
    assert TrimEnd("Line two.") == "Line two.";
  }
}
