/** The storyboard view: scene headings of a note become cards with a title,
    an excerpt of the lines that follow and a click-to-jump target. */
module Storyboard {
  import opened Text

  /** One alternative of the scene-heading pattern: a literal prefix, or a
      literal prefix that must be followed by a word boundary (`TEASER\b`). */
  datatype HeadingPattern = Prefix(text: string) | Word(text: string)

  /** The alternatives of the scene-heading regular expression, in its order. */
  const HeadingPatterns: seq<HeadingPattern> := [
    Prefix("INT."), Prefix("EXT."), Prefix("INT./EXT."), Word("TEASER"),
    Prefix("ESTABLISHING"), Prefix("FADE IN:"), Prefix("FADE OUT."), Prefix("MONTAGE:"),
    Prefix("INTERCUT"), Prefix("INSERT"), Prefix("SMASH CUT:"), Prefix("MATCH CUT:")
  ]

  const ExcerptLines: nat := 4
  const ExcerptLimit: nat := 160

  /** The alternative `pat` matches at the start of the trimmed line `t`,
      ignoring ASCII case. */
  predicate MatchesAt(t: string, pat: HeadingPattern) {
    StartsWithFold(t, pat.text)
    && (pat.Word? ==> |t| == |pat.text| || !IsWordChar(t[|pat.text|]))
  }

  /** The `isScene` test of the storyboard: the trimmed line starts with one
      of the heading alternatives. */
  predicate IsScene(line: string): (b: bool)
    ensures b ==> |Trim(line)| >= 4
  {
    exists k :: 0 <= k < |HeadingPatterns| && MatchesAt(Trim(line), HeadingPatterns[k])
  }

  datatype Card = Card(title: string, excerpt: string, heading: string, line: nat)

  /** The next up-to-four lines after line `i`, untrimmed, joined by single
      spaces and cut to 160 characters. */
  function Excerpt(lines: seq<string>, i: nat): (r: string)
    requires i < |lines|
    ensures |r| <= ExcerptLimit
    ensures var joined := Join(lines[i + 1..Min(i + 1 + ExcerptLines, |lines|)], " ");
            |r| == Min(ExcerptLimit, |joined|) && r == joined[..|r|]
  {
    Take(Join(lines[i + 1..Min(i + 1 + ExcerptLines, |lines|)], " "), ExcerptLimit)
  }

  /** The card made for the heading on line `i`. */
  function CardAt(lines: seq<string>, i: nat): (c: Card)
    requires i < |lines|
    ensures c.line == i && c.heading == lines[i] && c.title == Trim(c.heading)
    ensures |c.title| <= |c.heading| && |c.excerpt| <= ExcerptLimit
  {
    Card(Trim(lines[i]), Excerpt(lines, i), lines[i], i)
  }

  /** The cards for the first `n` lines, in document order. */
  function CardsUpTo(lines: seq<string>, n: nat): (cards: seq<Card>)
    requires n <= |lines|
    ensures |cards| <= n
  {
    if n == 0 then []
    else CardsUpTo(lines, n - 1) + (if IsScene(lines[n - 1]) then [CardAt(lines, n - 1)] else [])
  }

  /** Every card sits on a heading line before `n` and carries that line's data. */
  ghost predicate CardsFaithful(lines: seq<string>, n: nat, cards: seq<Card>)
    requires n <= |lines|
  {
    forall k :: 0 <= k < |cards| ==>
      cards[k].line < n && IsScene(lines[cards[k].line]) && cards[k] == CardAt(lines, cards[k].line)
  }

  /** Cards come strictly in document order. */
  ghost predicate CardsOrdered(cards: seq<Card>) {
    forall k, m :: 0 <= k < m < |cards| ==> cards[k].line < cards[m].line
  }

  /** Every heading line before `n` has a card. */
  ghost predicate CardsCover(lines: seq<string>, n: nat, cards: seq<Card>)
    requires n <= |lines|
  {
    forall i :: 0 <= i < n && IsScene(lines[i]) ==> exists k :: 0 <= k < |cards| && cards[k].line == i
  }

  /** What a list of cards must be for the first `n` lines: one card per
      heading line, carrying that line's data, in document order, and no other
      card. */
  ghost predicate IsStoryboardUpTo(lines: seq<string>, n: nat, cards: seq<Card>)
    requires n <= |lines|
  {
    CardsFaithful(lines, n, cards) && CardsOrdered(cards) && CardsCover(lines, n, cards)
  }

  lemma {:induction false} CardsUpToFaithful(lines: seq<string>, n: nat)
    requires n <= |lines|
    ensures CardsFaithful(lines, n, CardsUpTo(lines, n))
  {
    if n > 0 {
      CardsUpToFaithful(lines, n - 1);
      var prev := CardsUpTo(lines, n - 1);
      var cards := CardsUpTo(lines, n);
      forall k | 0 <= k < |cards|
        ensures cards[k].line < n && IsScene(lines[cards[k].line]) && cards[k] == CardAt(lines, cards[k].line)
      {
        if k < |prev| { assert cards[k] == prev[k]; }
      }
    }
  }

  lemma {:induction false} CardsUpToOrdered(lines: seq<string>, n: nat)
    requires n <= |lines|
    ensures CardsOrdered(CardsUpTo(lines, n))
    ensures forall k :: 0 <= k < |CardsUpTo(lines, n)| ==> CardsUpTo(lines, n)[k].line < n
  {
    if n > 0 {
      CardsUpToOrdered(lines, n - 1);
      var prev := CardsUpTo(lines, n - 1);
      var cards := CardsUpTo(lines, n);
      forall k | 0 <= k < |cards| ensures cards[k].line < n {
        if k < |prev| { assert cards[k] == prev[k]; }
      }
      forall k, m | 0 <= k < m < |cards| ensures cards[k].line < cards[m].line {
        assert cards[k] == prev[k];
        if m < |prev| { assert cards[m] == prev[m]; }
      }
    }
  }

  lemma {:induction false} CardsUpToCover(lines: seq<string>, n: nat)
    requires n <= |lines|
    ensures CardsCover(lines, n, CardsUpTo(lines, n))
  {
    if n > 0 {
      CardsUpToCover(lines, n - 1);
      var prev := CardsUpTo(lines, n - 1);
      var cards := CardsUpTo(lines, n);
      forall i | 0 <= i < n && IsScene(lines[i])
        ensures exists k :: 0 <= k < |cards| && cards[k].line == i
      {
        if i == n - 1 {
          assert cards == prev + [CardAt(lines, i)];
          assert cards[|prev|].line == i;
        } else {
          var k :| 0 <= k < |prev| && prev[k].line == i;
          assert cards[k] == prev[k];
        }
      }
    }
  }

  lemma CardsUpToIsStoryboard(lines: seq<string>, n: nat)
    requires n <= |lines|
    ensures IsStoryboardUpTo(lines, n, CardsUpTo(lines, n))
  {
    CardsUpToFaithful(lines, n);
    CardsUpToOrdered(lines, n);
    CardsUpToCover(lines, n);
  }

  /** A text without heading lines has no cards. */
  lemma {:induction false} NoHeadingsNoCards(lines: seq<string>, n: nat)
    requires n <= |lines|
    requires forall i :: 0 <= i < n ==> !IsScene(lines[i])
    ensures CardsUpTo(lines, n) == []
  {
    if n > 0 {
      NoHeadingsNoCards(lines, n - 1);
    }
  }

  /** `StoryboardView.render`: walks the lines of the note and emits a card for
      every scene heading. */
  method Render(text: string) returns (cards: seq<Card>)
    ensures cards == CardsUpTo(Split(text), |Split(text)|)
    ensures IsStoryboardUpTo(Split(text), |Split(text)|, cards)
  {
    var lines := Split(text);
    cards := [];
    var idx := 0;
    while idx < |lines|
      invariant 0 <= idx <= |lines|
      invariant cards == CardsUpTo(lines, idx)
    {
      if IsScene(lines[idx]) {
        var title := Trim(lines[idx]);
        var excerpt := Excerpt(lines, idx);
        cards := cards + [Card(title, excerpt, lines[idx], idx)];
      }
      idx := idx + 1;
    }
    CardsUpToIsStoryboard(lines, |lines|);
  }

  /** With at least four lines after the heading, the excerpt is those four
      lines joined by spaces, cut to 160 characters. */
  lemma ExcerptOfFourLines(lines: seq<string>, i: nat)
    requires i + ExcerptLines < |lines|
    ensures Excerpt(lines, i)
            == Take(lines[i + 1] + " " + lines[i + 2] + " " + lines[i + 3] + " " + lines[i + 4], ExcerptLimit)
  {
    var four := lines[i + 1..i + 5];
    assert Join(four[3..], " ") == lines[i + 4];
    assert Join(four[2..], " ") == lines[i + 3] + " " + lines[i + 4] by {
      assert four[2..][1..] == four[3..];
    }
    assert Join(four[1..], " ") == lines[i + 2] + " " + (lines[i + 3] + " " + lines[i + 4]) by {
      assert four[1..][1..] == four[2..];
    }
    assert Join(four, " ") == lines[i + 1] + " " + (lines[i + 2] + " " + (lines[i + 3] + " " + lines[i + 4]));
  }

  /** A heading on the last line has an empty excerpt. */
  lemma ExcerptOfLastLine(lines: seq<string>)
    requires |lines| > 0
    ensures Excerpt(lines, |lines| - 1) == ""
  {
  }

  /** `_findLine`: the first line equal to `text`, or -1. */
  function FindLine(lines: seq<string>, text: string): (r: int)
    ensures -1 <= r < |lines|
    ensures r == -1 <==> text !in lines
    ensures r >= 0 ==> lines[r] == text && forall j :: 0 <= j < r ==> lines[j] != text
  {
    if |lines| == 0 then -1
    else if lines[0] == text then 0
    else
      var r := FindLine(lines[1..], text);
      if r == -1 then -1 else r + 1
  }

  /** The click handler: the line the cursor moves to in the editor holding
      `editorText`, or None when no line equals the card's heading line. */
  function JumpTarget(editorText: string, card: Card): (r: Option<nat>)
    ensures r.None? <==> card.heading !in Split(editorText)
    ensures r.Some? ==> r.value < |Split(editorText)| && Split(editorText)[r.value] == card.heading
    ensures r.Some? ==> forall j :: 0 <= j < r.value ==> Split(editorText)[j] != card.heading
  {
    var pos := FindLine(Split(editorText), card.heading);
    if pos == -1 then None else Some(pos)
  }

  /** When the editor still holds the rendered text, clicking a card moves the
      cursor to the first line equal to the heading line, which is never below
      the card's own line. */
  lemma JumpLandsOnHeading(text: string, cards: seq<Card>, k: nat)
    requires IsStoryboardUpTo(Split(text), |Split(text)|, cards)
    requires k < |cards|
    ensures JumpTarget(text, cards[k]).Some?
    ensures var p := JumpTarget(text, cards[k]).value;
            p <= cards[k].line && Split(text)[p] == Split(text)[cards[k].line]
            && forall j :: 0 <= j < p ==> Split(text)[j] != cards[k].heading
  {
    var lines := Split(text);
    assert cards[k].heading == lines[cards[k].line];
  }

  /** A repeated heading jumps to its first occurrence: the card of the third
      line of `INT. BAR / x / INT. BAR` moves the cursor to line 0. */
  lemma DuplicateHeadingJumpsToFirst(card: Card)
    requires card.heading == "INT. BAR" && card.line == 2
    ensures JumpTarget("INT. BAR\nx\nINT. BAR", card) == Some(0)
  {
    var lines := ["INT. BAR", "x", "INT. BAR"];
    assert Join(lines, "\n") == "INT. BAR\nx\nINT. BAR" by {
      assert lines[1..][1..] == ["INT. BAR"];
    }
    forall i | 0 <= i < |lines| ensures '\n' !in lines[i] {
    }
    SplitJoin(lines);
    assert FindLine(lines, "INT. BAR") == 0;
  }

  /** Only `TEASER` needs a word boundary: `INSERTION` is a heading. */
  lemma InsertionIsHeading()
    ensures IsScene("INSERTION")
  {
    TrimUnique([], "INSERTION", []);
    assert [] + "INSERTION" + [] == "INSERTION";
    assert MatchesAt("INSERTION", HeadingPatterns[9]);
  }

  /** Case is ignored: `Intercutting` is a heading. */
  lemma IntercuttingIsHeading()
    ensures IsScene("Intercutting")
  {
    TrimUnique([], "Intercutting", []);
    assert [] + "Intercutting" + [] == "Intercutting";
    assert MatchesAt("Intercutting", HeadingPatterns[8]);
  }

  /** `TEASERS` fails the word boundary after `TEASER` and no other alternative. */
  lemma TeasersIsNotHeading()
    ensures !IsScene("TEASERS")
  {
    TrimUnique([], "TEASERS", []);
    assert [] + "TEASERS" + [] == "TEASERS";
    forall k | 0 <= k < |HeadingPatterns| ensures !MatchesAt("TEASERS", HeadingPatterns[k]) {
    }
  }

  lemma MatchesAtFold(t: string, u: string, pat: HeadingPattern)
    requires SameFold(t, u)
    ensures MatchesAt(t, pat) <==> MatchesAt(u, pat)
  {
    SameFoldStarts(t, u, pat.text);
    if |pat.text| < |t| {
      FoldKeepsClass(t[|pat.text|], u[|pat.text|]);
    }
  }

  /** Whether a line is a heading never depends on the case of its ASCII
      letters: `Int. house`, `INT. HOUSE` and `int. House` all are. */
  lemma IsSceneIgnoresCase(a: string, b: string)
    requires SameFold(a, b)
    ensures IsScene(a) <==> IsScene(b)
  {
    TrimFold(a, b);
    forall k | 0 <= k < |HeadingPatterns|
      ensures MatchesAt(Trim(a), HeadingPatterns[k]) <==> MatchesAt(Trim(b), HeadingPatterns[k])
    {
      MatchesAtFold(Trim(a), Trim(b), HeadingPatterns[k]);
    }
  }

  /** Indentation and trailing white space neither make nor unmake a heading,
      and do not show in its card's title. */
  lemma IsSceneIgnoresSpace(pre: string, line: string, post: string)
    requires AllSpace(pre) && AllSpace(post)
    ensures IsScene(pre + line + post) <==> IsScene(line)
    ensures Trim(pre + line + post) == Trim(line)
  {
    TrimPadded(pre, line, post);
  }

  /** A note ending with a line feed splits into a last, empty line, which
      still takes part in the join: the excerpt of `INT. HOUSE - DAY`,
      `She walks in.`, `He waits.` and that empty line ends with a space. */
  lemma ExcerptKeepsEmptyLastLine()
    ensures Excerpt(["INT. HOUSE - DAY", "She walks in.", "He waits.", ""], 0)
      == "She walks in. He waits. "
  {
    var lines := ["INT. HOUSE - DAY", "She walks in.", "He waits.", ""];
    var tail := ["She walks in.", "He waits.", ""];
    assert lines[1..Min(0 + 1 + ExcerptLines, |lines|)] == tail;
    assert Join(tail[2..], " ") == "";
    assert Join(tail[1..], " ") == "He waits." + " " + "";
    assert Join(tail, " ") == "She walks in." + " " + ("He waits." + " " + "");
  }
}
