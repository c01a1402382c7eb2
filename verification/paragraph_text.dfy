/**
 Text runs (apitext.go): `Paragraph.AddText` turns a string into one run whose
 children are `w:t` pieces separated by `w:tab` and `w:br` elements, and
 `Paragraph.AddTab` appends a run holding a single tab.
 */
module ParagraphText {
  import opened DocxTypes

  // ---------------------------------------------------------------------------
  // Splitting and joining
  // ---------------------------------------------------------------------------

  /** `strings.Split(s, sep)` for a one-character separator: the pieces
      between the separators, one more piece than separators, so the empty
      string gives one empty piece. */
  function Split(s: string, sep: char): (r: seq<string>)
    ensures |r| >= 1
    decreases |s|
  {
    if |s| == 0 then [""]
    else if s[0] == sep then [""] + Split(s[1..], sep)
    else
      var rest := Split(s[1..], sep);
      [[s[0]] + rest[0]] + rest[1..]
  }

  /** A character that is the separator, or is not in the string, is in no piece. */
  lemma {:induction false} SplitAvoids(s: string, sep: char, c: char)
    requires c == sep || c !in s
    ensures forall i :: 0 <= i < |Split(s, sep)| ==> c !in Split(s, sep)[i]
    decreases |s|
  {
    if |s| > 0 {
      assert c == sep || c !in s[1..];
      SplitAvoids(s[1..], sep, c);
      var rest := Split(s[1..], sep);
      if s[0] != sep {
        assert c !in [s[0]] + rest[0];
        assert forall i :: 1 <= i < |rest| ==> Split(s, sep)[i] == rest[i];
      } else {
        assert forall i :: 1 <= i < |rest| + 1 ==> Split(s, sep)[i] == rest[i - 1];
      }
    }
  }

  /** `strings.Join(pieces, [sep])`. */
  function Join(pieces: seq<string>, sep: char): string {
    if |pieces| == 0 then ""
    else if |pieces| == 1 then pieces[0]
    else pieces[0] + [sep] + Join(pieces[1..], sep)
  }

  function Occurrences(s: string, c: char): nat {
    if |s| == 0 then 0 else (if s[0] == c then 1 else 0) + Occurrences(s[1..], c)
  }

  /** Joining the pieces of a split gives the string back. */
  lemma {:induction false} JoinSplit(s: string, sep: char)
    ensures Join(Split(s, sep), sep) == s
    decreases |s|
  {
    if |s| > 0 {
      var rest := Split(s[1..], sep);
      JoinSplit(s[1..], sep);
      if s[0] == sep {
        assert Split(s, sep) == [""] + rest;
        assert ([""] + rest)[1..] == rest;
        assert s == [sep] + s[1..];
      } else {
        var r := Split(s, sep);
        assert r == [[s[0]] + rest[0]] + rest[1..];
        if |rest| == 1 {
          assert s == [s[0]] + s[1..];
        } else {
          assert r[1..] == rest[1..];
          assert s == [s[0]] + s[1..];
        }
      }
    }
  }

  /** A split has one piece more than the string has separators. */
  lemma {:induction false} SplitCount(s: string, sep: char)
    ensures |Split(s, sep)| == Occurrences(s, sep) + 1
    decreases |s|
  {
    if |s| > 0 {
      SplitCount(s[1..], sep);
    }
  }

  // ---------------------------------------------------------------------------
  // Runs
  // ---------------------------------------------------------------------------

  /** The text a run child stands for. */
  function ChildText(c: RunChild): string {
    match c
    case Text(k) => k
    case Tab => "\t"
    case Break => "\n"
  }

  function Flatten(cs: seq<RunChild>): string {
    if |cs| == 0 then "" else ChildText(cs[0]) + Flatten(cs[1..])
  }

  lemma {:induction false} FlattenAppend(a: seq<RunChild>, b: seq<RunChild>)
    ensures Flatten(a + b) == Flatten(a) + Flatten(b)
  {
    if |a| == 0 {
      assert a + b == b;
    } else {
      assert (a + b)[0] == a[0] && (a + b)[1..] == a[1..] + b;
      FlattenAppend(a[1..], b);
    }
  }

  /** The inner loop over the tab-separated pieces of one line: a tab before
      every piece but the first, and a text only for a non-empty piece. */
  function PieceChildren(pieces: seq<string>, first: bool): seq<RunChild> {
    if |pieces| == 0 then []
    else
      (if first then [] else [Tab]) +
      (PieceText(pieces[0]) + PieceChildren(pieces[1..], false))
  }

  /** A piece becomes a text child only when it is not empty. */
  function PieceText(piece: string): seq<RunChild> {
    if piece != "" then [Text(piece)] else []
  }

  /** The outer loop over the lines: a break before every line but the first. */
  function LineChildren(lines: seq<string>, first: bool): seq<RunChild> {
    if |lines| == 0 then []
    else
      (if first then [] else [Break]) +
      (PieceChildren(Split(lines[0], '\t'), true) + LineChildren(lines[1..], false))
  }

  /** The children `AddText` builds for a text other than a lone tab. */
  function TextChildren(text: string): seq<RunChild> {
    LineChildren(Split(text, '\n'), true)
  }

  /** The run properties `AddText` starts from: the paragraph's language and
      no-proofing marks, copied when the paragraph has run properties. */
  function InheritedRunProperties(p: Paragraph): (r: RunProperties)
    ensures p.properties.Some? && p.properties.value.runProperties.Some? ==>
              r == p.properties.value.runProperties.value
    ensures p.properties.None? || p.properties.value.runProperties.None? ==>
              r.lang.None? && r.noProof.None?
  {
    if p.properties.Some? && p.properties.value.runProperties.Some?
    then RunProperties(p.properties.value.runProperties.value.lang,
                       p.properties.value.runProperties.value.noProof)
    else RunProperties(None, None)
  }

  /** `Paragraph.AddTab`: appends and returns a run holding one tab, with
      empty run properties. */
  function AddTab(p: Paragraph): (res: (Paragraph, Run))
    ensures res.1.children == [Tab] && res.1.properties == RunProperties(None, None)
    ensures res.0.children == p.children + [res.1] && res.0.properties == p.properties
  {
    var run := Run(RunProperties(None, None), [Tab]);
    (p.(children := p.children + [run]), run)
  }

  /** `Paragraph.AddText`: a lone tab is delegated to `AddTab`; any other
      text becomes one appended run, returned. */
  function AddText(p: Paragraph, text: string): (res: (Paragraph, Run))
    ensures res.0.children == p.children + [res.1] && res.0.properties == p.properties
    ensures text == "\t" ==> res.1 == Run(RunProperties(None, None), [Tab])
    ensures text != "\t" ==> res.1.properties == InheritedRunProperties(p)
  {
    if text == "\t" then AddTab(p)
    else
      var run := Run(InheritedRunProperties(p), TextChildren(text));
      (p.(children := p.children + [run]), run)
  }

  // ---------------------------------------------------------------------------
  // What AddText promises
  // ---------------------------------------------------------------------------

  /** A join is its first piece followed by the separated join of the rest. */
  lemma JoinHead(pieces: seq<string>, sep: char)
    requires |pieces| > 0
    ensures Join(pieces, sep) ==
            pieces[0] + (if |pieces| == 1 then "" else [sep] + Join(pieces[1..], sep))
  {
  }

  /** A piece after the first is the first piece of the rest, with a tab in front. */
  lemma PieceAfterFirst(pieces: seq<string>)
    requires |pieces| > 0
    ensures PieceChildren(pieces, false) == [Tab] + PieceChildren(pieces, true)
  {
  }

  /** The pieces of a line read back as the pieces joined by tabs. */
  lemma {:induction false} PieceChildrenText(pieces: seq<string>)
    ensures Flatten(PieceChildren(pieces, true)) == Join(pieces, '\t')
    decreases |pieces|
  {
    if |pieces| > 0 {
      var head := PieceText(pieces[0]);
      var tail := PieceChildren(pieces[1..], false);
      assert PieceChildren(pieces, true) == head + tail;
      FlattenAppend(head, tail);
      assert Flatten(head) == pieces[0] by {
        if pieces[0] != "" { assert Flatten(head) == ChildText(Text(pieces[0])) + Flatten([]); }
      }
      if |pieces| > 1 {
        PieceAfterFirst(pieces[1..]);
        FlattenAppend([Tab], PieceChildren(pieces[1..], true));
        assert Flatten([Tab]) == "\t" by { assert Flatten([Tab]) == ChildText(Tab) + Flatten([]); }
        PieceChildrenText(pieces[1..]);
      }
      JoinHead(pieces, '\t');
    }
  }

  /** One line's children read back as the line. */
  lemma LineText(line: string)
    ensures Flatten(PieceChildren(Split(line, '\t'), true)) == line
  {
    PieceChildrenText(Split(line, '\t'));
    JoinSplit(line, '\t');
  }

  /** A line after the first is the first line of the rest, with a break in front. */
  lemma LineAfterFirst(lines: seq<string>)
    requires |lines| > 0
    ensures LineChildren(lines, false) == [Break] + LineChildren(lines, true)
  {
  }

  /** The lines read back as the lines joined by newlines. */
  lemma {:induction false} LineChildrenText(lines: seq<string>)
    ensures Flatten(LineChildren(lines, true)) == Join(lines, '\n')
    decreases |lines|
  {
    if |lines| > 0 {
      var inner := PieceChildren(Split(lines[0], '\t'), true);
      var tail := LineChildren(lines[1..], false);
      assert LineChildren(lines, true) == inner + tail;
      FlattenAppend(inner, tail);
      LineText(lines[0]);
      if |lines| > 1 {
        LineAfterFirst(lines[1..]);
        FlattenAppend([Break], LineChildren(lines[1..], true));
        assert Flatten([Break]) == "\n" by { assert Flatten([Break]) == ChildText(Break) + Flatten([]); }
        LineChildrenText(lines[1..]);
      }
      JoinHead(lines, '\n');
    }
  }

  /** Reading the run back (text as itself, a tab as "\t", a break as "\n")
      gives exactly the text passed to `AddText`. */
  lemma TextRoundTrip(p: Paragraph, text: string)
    ensures Flatten(AddText(p, text).1.children) == text
  {
    if text != "\t" {
      TextChildrenText(text);
    }
  }

  /** The children built for any text spell that text back. */
  lemma TextChildrenText(text: string)
    ensures Flatten(TextChildren(text)) == text
  {
    LineChildrenText(Split(text, '\n'));
    JoinSplit(text, '\n');
  }

  /** A text child is never empty and never holds a tab or a line break. */
  predicate TextsClean(cs: seq<RunChild>) {
    forall k :: 0 <= k < |cs| && cs[k].Text? ==>
      cs[k].text != "" && '\n' !in cs[k].text && '\t' !in cs[k].text
  }

  lemma {:induction false} PieceChildrenClean(pieces: seq<string>, first: bool)
    requires forall i :: 0 <= i < |pieces| ==> '\n' !in pieces[i] && '\t' !in pieces[i]
    ensures TextsClean(PieceChildren(pieces, first))
    decreases |pieces|
  {
    if |pieces| > 0 {
      PieceChildrenClean(pieces[1..], false);
      assert forall i :: 1 <= i < |pieces| ==> pieces[1..][i - 1] == pieces[i];
    }
  }

  lemma {:induction false} LineChildrenClean(lines: seq<string>, first: bool)
    requires forall i :: 0 <= i < |lines| ==> '\n' !in lines[i]
    ensures TextsClean(LineChildren(lines, first))
    decreases |lines|
  {
    if |lines| > 0 {
      var pieces := Split(lines[0], '\t');
      SplitAvoids(lines[0], '\t', '\t');
      SplitAvoids(lines[0], '\t', '\n');
      PieceChildrenClean(pieces, true);
      assert forall i :: 1 <= i < |lines| ==> lines[1..][i - 1] == lines[i];
      LineChildrenClean(lines[1..], false);
    }
  }

  lemma TextPiecesClean(p: Paragraph, text: string)
    ensures TextsClean(AddText(p, text).1.children)
  {
    if text != "\t" {
      SplitAvoids(text, '\n', '\n');
      LineChildrenClean(Split(text, '\n'), true);
    }
  }

  function CountTabs(cs: seq<RunChild>): nat {
    if |cs| == 0 then 0 else (if cs[0].Tab? then 1 else 0) + CountTabs(cs[1..])
  }

  function CountBreaks(cs: seq<RunChild>): nat {
    if |cs| == 0 then 0 else (if cs[0].Break? then 1 else 0) + CountBreaks(cs[1..])
  }

  lemma {:induction false} OccurrencesAppend(a: string, b: string, c: char)
    ensures Occurrences(a + b, c) == Occurrences(a, c) + Occurrences(b, c)
  {
    if |a| == 0 {
      assert a + b == b;
    } else {
      assert (a + b)[0] == a[0] && (a + b)[1..] == a[1..] + b;
      OccurrencesAppend(a[1..], b, c);
    }
  }

  lemma {:induction false} OccurrencesAbsent(s: string, c: char)
    requires c !in s
    ensures Occurrences(s, c) == 0
  {
    if |s| > 0 {
      OccurrencesAbsent(s[1..], c);
    }
  }

  /** With clean texts, tabs and breaks are exactly the tab and newline
      characters of the flattened run. */
  lemma {:induction false} CountsOfFlatten(cs: seq<RunChild>)
    requires TextsClean(cs)
    ensures Occurrences(Flatten(cs), '\t') == CountTabs(cs)
    ensures Occurrences(Flatten(cs), '\n') == CountBreaks(cs)
  {
    if |cs| > 0 {
      assert TextsClean(cs[1..]) by {
        assert forall k :: 1 <= k < |cs| ==> cs[1..][k - 1] == cs[k];
      }
      CountsOfFlatten(cs[1..]);
      OccurrencesAppend(ChildText(cs[0]), Flatten(cs[1..]), '\t');
      OccurrencesAppend(ChildText(cs[0]), Flatten(cs[1..]), '\n');
      if cs[0].Text? {
        OccurrencesAbsent(cs[0].text, '\t');
        OccurrencesAbsent(cs[0].text, '\n');
      }
    }
  }

  /** The run holds one break per newline and one tab per tab character. */
  lemma TextCounts(p: Paragraph, text: string)
    ensures var cs := AddText(p, text).1.children;
            CountBreaks(cs) == Occurrences(text, '\n') && CountTabs(cs) == Occurrences(text, '\t')
  {
    TextPiecesClean(p, text);
    TextRoundTrip(p, text);
    CountsOfFlatten(AddText(p, text).1.children);
  }

  /** A lone tab does not inherit the paragraph's language, any other text does. */
  lemma LoneTabIgnoresLanguage(p: Paragraph, lang: Lang)
    requires p.properties == Some(ParagraphProperties(None, Some(RunProperties(Some(lang), None))))
    ensures AddText(p, "\t").1.properties.lang.None?
    ensures AddText(p, "a").1.properties.lang == Some(lang)
  {
  }
}
