/** The word splitter of mini-docker's Dockerfile parser. */
module ShellWords {
  import opened Strings

  datatype Quote = Bare | Single | Double

  /** What one character means where it stands. */
  datatype Role = Toggle | Break | Text

  function RoleOf(q: Quote, c: char): Role {
    if c == '\'' && !q.Double? then Toggle
    else if c == '"' && !q.Single? then Toggle
    else if c == ' ' && q.Bare? then Break
    else Text
  }

  /** The quotation that is open after a text. */
  function OpenAfter(s: string): Quote {
    if s == "" then Bare
    else
      var q, c := OpenAfter(s[..|s| - 1]), s[|s| - 1];
      if RoleOf(q, c) != Toggle then q
      else if !q.Bare? then Bare
      else if c == '\'' then Single else Double
  }

  /** A text written behind the last piece. */
  function Glue(pieces: seq<string>, w: string): (glued: seq<string>)
    requires pieces != []
    ensures |glued| == |pieces|
  {
    pieces[..|pieces| - 1] + [pieces[|pieces| - 1] + w]
  }

  lemma {:induction false} GlueTwice(pieces: seq<string>, v: string, w: string)
    requires pieces != []
    ensures Glue(Glue(pieces, v), w) == Glue(pieces, v + w)
    ensures Glue(pieces, "") == pieces
  {
    var last := pieces[|pieces| - 1];
    assert (last + v) + w == last + (v + w);
    assert last + "" == last;
    assert Glue(pieces, v)[..|pieces| - 1] == pieces[..|pieces| - 1];
  }

  /** The text cut at every active break, without the active quotes; pieces may be empty. */
  function Pieces(s: string): (pieces: seq<string>)
    ensures |pieces| >= 1
  {
    if s == "" then [""]
    else
      var before, c := s[..|s| - 1], s[|s| - 1];
      match RoleOf(OpenAfter(before), c)
      case Toggle => Pieces(before)
      case Break => Pieces(before) + [""]
      case Text => Glue(Pieces(before), [c])
  }

  function NonEmpty(pieces: seq<string>): seq<string> {
    if pieces == [] then []
    else
      var last := |pieces| - 1;
      if pieces[last] == "" then NonEmpty(pieces[..last]) else NonEmpty(pieces[..last]) + [pieces[last]]
  }

  /** The words of a text: its non-empty pieces. */
  function Words(s: string): seq<string> {
    NonEmpty(Pieces(s))
  }

  lemma {:induction false} OneMore(s: string, c: char)
    ensures var pieces := Pieces(s); var q := OpenAfter(s);
            && Pieces(s + [c]) == (match RoleOf(q, c)
                                   case Toggle => pieces
                                   case Break => pieces + [""]
                                   case Text => Glue(pieces, [c]))
            && OpenAfter(s + [c]) == (if RoleOf(q, c) != Toggle then q
                                      else if !q.Bare? then Bare
                                      else if c == '\'' then Single else Double)
  {
    assert (s + [c])[..|s|] == s;
  }

  /** The variables of the scanning loop, after it has read s. */
  ghost predicate Scanned(s: string, inSingle: bool, inDouble: bool, current: string, args: seq<string>) {
    var pieces := Pieces(s);
    && inSingle == OpenAfter(s).Single? && inDouble == OpenAfter(s).Double?
    && current == pieces[|pieces| - 1] && args == NonEmpty(pieces[..|pieces| - 1])
  }

  lemma {:induction false} NonEmptyAppend(pieces: seq<string>, w: string)
    ensures NonEmpty(pieces + [w]) == if w == "" then NonEmpty(pieces) else NonEmpty(pieces) + [w]
  {
    assert (pieces + [w])[..|pieces|] == pieces;
  }

  /** One turn of the loop, whichever branch it takes. */
  lemma {:induction false} ScanOne(s: string, c: char, inSingle: bool, inDouble: bool, current: string,
                                   args: seq<string>)
    requires Scanned(s, inSingle, inDouble, current, args)
    ensures if c == '\'' && !inDouble then Scanned(s + [c], !inSingle, inDouble, current, args)
            else if c == '"' && !inSingle then Scanned(s + [c], inSingle, !inDouble, current, args)
            else if c == ' ' && !inSingle && !inDouble then
              Scanned(s + [c], inSingle, inDouble, "", if current == "" then args else args + [current])
            else Scanned(s + [c], inSingle, inDouble, current + [c], args)
  {
    hide Pieces, OpenAfter, NonEmpty;
    OneMore(s, c);
    var pieces := Pieces(s);
    var last := |pieces| - 1;
    if RoleOf(OpenAfter(s), c) == Break {
      NonEmptyAppend(pieces[..last], current);
      assert pieces[..last] + [current] == pieces;
      assert (pieces + [""])[..last + 1] == pieces;
    }
  }

  lemma {:induction false} ScanEnds(s: string, inSingle: bool, inDouble: bool, current: string, args: seq<string>)
    requires Scanned(s, inSingle, inDouble, current, args)
    ensures Words(s) == if current == "" then args else args + [current]
  {
    hide Pieces, OpenAfter, NonEmpty;
    var pieces := Pieces(s);
    NonEmptyAppend(pieces[..|pieces| - 1], current);
    assert pieces[..|pieces| - 1] + [current] == pieces;
  }

  method ShellSplit(s: string) returns (args: seq<string>)
    ensures args == Words(s)
  {
    args := [];
    var current := "";
    var inSingle, inDouble := false, false;
    assert Scanned(s[..0], inSingle, inDouble, current, args);
    hide Scanned, Words;
    for i := 0 to |s|
      invariant Scanned(s[..i], inSingle, inDouble, current, args)
    {
      var c := s[i];
      ScanOne(s[..i], c, inSingle, inDouble, current, args);
      assert s[..i + 1] == s[..i] + [c];
      if c == '\'' && !inDouble {
        inSingle := !inSingle;
      } else if c == '"' && !inSingle {
        inDouble := !inDouble;
      } else if c == ' ' && !inSingle && !inDouble {
        if |current| > 0 {
          args := args + [current];
          current := "";
        }
      } else {
        current := current + [c];
      }
    }
    assert s[..|s|] == s;
    ScanEnds(s, inSingle, inDouble, current, args);
    if |current| > 0 {
      args := args + [current];
    }
  }

  // ---- What the words are ----

  function Concat(pieces: seq<string>): string {
    if pieces == [] then "" else Concat(pieces[..|pieces| - 1]) + pieces[|pieces| - 1]
  }

  /** The text without its active quotes and active breaks. */
  function Kept(s: string): string {
    if s == "" then ""
    else
      var before, c := s[..|s| - 1], s[|s| - 1];
      Kept(before) + if RoleOf(OpenAfter(before), c) == Text then [c] else ""
  }

  lemma {:induction false} NonEmptyWords(pieces: seq<string>)
    ensures "" !in NonEmpty(pieces)
    ensures Concat(NonEmpty(pieces)) == Concat(pieces)
    ensures "" !in pieces ==> NonEmpty(pieces) == pieces
  {
    if pieces != [] {
      var front, last := pieces[..|pieces| - 1], pieces[|pieces| - 1];
      NonEmptyWords(front);
      assert pieces == front + [last];
      assert (NonEmpty(front) + [last])[..|NonEmpty(front)|] == NonEmpty(front);
    }
  }

  lemma {:induction false} PiecesKeepText(s: string)
    ensures Concat(Pieces(s)) == Kept(s)
  {
    if s != "" {
      var before, c := s[..|s| - 1], s[|s| - 1];
      var pieces := Pieces(before);
      var last := |pieces| - 1;
      PiecesKeepText(before);
      match RoleOf(OpenAfter(before), c)
      case Toggle =>
      case Break =>
        assert (pieces + [""])[..|pieces|] == pieces;
      case Text =>
        assert (pieces[..last] + [pieces[last] + [c]])[..last] == pieces[..last];
    }
  }

  /** No word is empty, and the words together are the text without active quotes and breaks. */
  lemma {:induction false} WordsKeepText(s: string)
    ensures "" !in Words(s)
    ensures Concat(Words(s)) == Kept(s)
  {
    NonEmptyWords(Pieces(s));
    PiecesKeepText(s);
  }

  // ---- Quoting ----

  /** A mark that can quote the word: a quotation mark the word does not contain. */
  predicate CanQuote(mark: char, w: string) {
    (mark == '\'' || mark == '"') && mark !in w
  }

  function Quoted(mark: char, w: string): string {
    [mark] + w + [mark]
  }

  /** Inside an open quotation everything but its own mark is text. */
  lemma {:induction false} InsideQuotes(s: string, mark: char, w: string)
    requires CanQuote(mark, w)
    requires OpenAfter(s) == if mark == '\'' then Single else Double
    ensures OpenAfter(s + w) == OpenAfter(s)
    ensures Pieces(s + w) == Glue(Pieces(s), w)
    decreases |w|
  {
    hide Pieces, OpenAfter, Glue;
    if w == "" {
      assert s + w == s;
      GlueTwice(Pieces(s), "", "");
    } else {
      var front, c := w[..|w| - 1], w[|w| - 1];
      InsideQuotes(s, mark, front);
      OneMore(s + front, c);
      GlueTwice(Pieces(s), front, [c]);
      assert w == front + [c];
      assert s + w == (s + front) + [c];
    }
  }

  lemma {:induction false} QuotedWord(s: string, mark: char, w: string)
    requires CanQuote(mark, w) && OpenAfter(s).Bare?
    ensures OpenAfter(s + Quoted(mark, w)).Bare?
    ensures Pieces(s + Quoted(mark, w)) == Glue(Pieces(s), w)
  {
    hide Pieces, OpenAfter, Glue;
    OneMore(s, mark);
    InsideQuotes(s + [mark], mark, w);
    OneMore(s + [mark] + w, mark);
    assert s + Quoted(mark, w) == s + [mark] + w + [mark];
  }

  /** Each word inside its own quotation marks. */
  function QuoteAll(marks: string, words: seq<string>): (quoted: seq<string>)
    requires |marks| == |words|
    ensures |quoted| == |words|
    ensures forall k :: 0 <= k < |words| ==> quoted[k] == Quoted(marks[k], words[k])
  {
    seq(|words|, k requires 0 <= k < |words| => Quoted(marks[k], words[k]))
  }

  /** Behind finished pieces, a word written into an empty piece stands by itself. */
  lemma {:induction false} GlueIntoEmpty(front: seq<string>, w: string)
    ensures Glue(front + [""], w) == front + [w]
  {
    assert "" + w == w;
    assert (front + [""])[..|front|] == front;
  }

  lemma {:induction false} JoinQuoted(marks: string, words: seq<string>)
    requires |marks| == |words| > 0
    ensures Join(QuoteAll(marks, words), ' ') ==
            if |words| == 1 then Quoted(marks[0], words[0])
            else Quoted(marks[0], words[0]) + ([' '] + Join(QuoteAll(marks[1..], words[1..]), ' '))
  {
    hide Quoted;
    var quoted := QuoteAll(marks, words);
    if |words| > 1 {
      assert quoted[1..] == QuoteAll(marks[1..], words[1..]);
      var rest := Join(quoted[1..], ' ');
      assert quoted[0] + [' '] + rest == quoted[0] + ([' '] + rest);
    }
  }

  lemma {:induction false} JoinedPieces(s: string, front: seq<string>, marks: string, words: seq<string>)
    requires |marks| == |words| > 0
    requires forall k :: 0 <= k < |words| ==> CanQuote(marks[k], words[k])
    requires OpenAfter(s).Bare? && Pieces(s) == front + [""]
    ensures Pieces(s + Join(QuoteAll(marks, words), ' ')) == front + words
    decreases |words|
  {
    hide Pieces, OpenAfter, Glue, Quoted, CanQuote, QuoteAll, Join;
    var first := Quoted(marks[0], words[0]);
    QuotedWord(s, marks[0], words[0]);
    GlueIntoEmpty(front, words[0]);
    JoinQuoted(marks, words);
    if |words| == 1 {
      assert words == [words[0]];
    } else {
      var rest := Join(QuoteAll(marks[1..], words[1..]), ' ');
      OneMore(s + first, ' ');
      JoinedPieces(s + first + [' '], front + [words[0]], marks[1..], words[1..]);
      assert s + (first + ([' '] + rest)) == s + first + [' '] + rest;
      assert front + words == front + [words[0]] + words[1..];
    }
  }

  /**
   * Quoting words, joining them with single spaces and splitting the result drops the empty words
   * and nothing else, whatever spaces and other quotation marks the words contain.
   */
  lemma {:induction false} QuotedWords(marks: string, words: seq<string>)
    requires |marks| == |words|
    requires forall k :: 0 <= k < |words| ==> CanQuote(marks[k], words[k])
    ensures Words(Join(QuoteAll(marks, words), ' ')) == NonEmpty(words)
  {
    var line := Join(QuoteAll(marks, words), ' ');
    if words == [] {
      assert line == "";
      assert NonEmpty([""]) == [];
    } else {
      hide QuoteAll, Join, CanQuote, NonEmpty;
      assert Pieces("") == [] + [""];
      JoinedPieces("", [], marks, words);
      assert "" + line == line;
      assert [] + words == words;
    }
  }

  /** The round trip holds for exactly the lists without an empty word. */
  lemma {:induction false} RoundTripIff(marks: string, words: seq<string>)
    requires |marks| == |words|
    requires forall k :: 0 <= k < |words| ==> CanQuote(marks[k], words[k])
    ensures Words(Join(QuoteAll(marks, words), ' ')) == words <==> "" !in words
  {
    QuotedWords(marks, words);
    NonEmptyWords(words);
  }

  /** Without quotation marks the words are the non-empty fields between single spaces. */
  lemma {:induction false} UnquotedFields(s: string)
    requires '\'' !in s && '"' !in s
    ensures OpenAfter(s).Bare?
    ensures Pieces(s) == Split(s, ' ')
  {
    hide Split, Glue, Index, Pieces, OpenAfter;
    if s == "" {
      SplitNone(s, ' ');
      PiecesOfNothing();
    } else {
      var before, c := s[..|s| - 1], s[|s| - 1];
      assert s == before + [c];
      UnquotedFields(before);
      OneMore(before, c);
      SplitAppend(before, c, ' ');
    }
  }

  lemma {:induction false} PiecesOfNothing()
    ensures Pieces("") == [""] && OpenAfter("") == Bare
  {
  }

  lemma {:induction false} SplitNone(s: string, sep: char)
    requires sep !in s
    ensures Split(s, sep) == [s]
  {
  }

  lemma {:induction false} SplitAppend(s: string, c: char, sep: char)
    ensures Split(s + [c], sep) == if c == sep then Split(s, sep) + [""] else Glue(Split(s, sep), [c])
    decreases |s|
  {
    hide Index, Split;
    var i := Index(s, sep);
    if i >= 0 {
      var a, b := s[..i], s[i + 1..];
      SplitAppend(b, c, sep);
      SplitFirst(a, b, sep);
      SplitFirst(a, b + [c], sep);
      assert s == a + [sep] + b;
      assert s + [c] == a + [sep] + (b + [c]);
      assert Glue([a] + Split(b, sep), [c]) == [a] + Glue(Split(b, sep), [c]);
    } else if c == sep {
      SplitFirst(s, "", sep);
      SplitNone(s, sep);
      SplitNone("", sep);
      assert s + [c] == s + [sep] + "";
    } else {
      SplitNone(s + [c], sep);
      SplitNone(s, sep);
    }
  }
}
