/**
 * The transcript view: a list of speaker lines, a search box that filters the
 * list, a highlight on lines whose text matches the search, the line the user
 * last clicked, and a play/pause toggle.
 */
module TranscriptPlayer {
  import opened Wrappers
  import Text

  /** One line of a transcript; its colour class is presentation only and is left out. */
  datatype Line = Line(id: int, speaker: string, time: string, timestamp: int, text: string)

  /** The transcript the component shows. */
  const MockTranscript: seq<Line> := [
    Line(1, "Locutor 1", "00:12", 12,
         "Olá pessoal, bem-vindos ao nosso canal! Hoje vamos falar sobre inteligência artificial e como ela está transformando o mundo dos negócios."),
    Line(2, "Locutor 2", "00:28", 28,
         "Essa é realmente uma revolução incrível. A IA está mudando completamente a forma como trabalhamos e vivemos."),
    Line(3, "Locutor 1", "00:45", 45,
         "Exatamente! E uma das aplicações mais interessantes é no processamento de linguagem natural, como a transcrição automática que vocês estão vendo agora."),
    Line(4, "Locutor 2", "01:02", 62,
         "Sim, a precisão dessas ferramentas melhorou drasticamente nos últimos anos. Antes era comum ter muitos erros, agora conseguimos transcrições quase perfeitas.")
  ]

  /** No two lines share an id, so an id picks out at most one line. */
  predicate DistinctIds(lines: seq<Line>)
  {
    forall i, j :: 0 <= i < j < |lines| ==> lines[i].id != lines[j].id
  }

  lemma MockIdsDistinct()
    ensures DistinctIds(MockTranscript) && |MockTranscript| == 4
    ensures forall k :: 0 <= k < |MockTranscript| ==> MockTranscript[k].id == k + 1
  {
  }

  // ----------------------------------------------------------------- search

  /** The text or the speaker includes the term, all three lower-cased. */
  predicate Matches(line: Line, term: string)
  {
    var t := Text.Lower(term);
    Text.Contains(Text.Lower(line.text), t) || Text.Contains(Text.Lower(line.speaker), t)
  }

  /** The lines the search keeps, in their order. */
  function Filter(lines: seq<Line>, term: string): (r: seq<Line>)
    ensures |r| <= |lines|
    ensures forall k :: 0 <= k < |r| ==> Matches(r[k], term)
  {
    if lines == [] then []
    else (if Matches(lines[0], term) then [lines[0]] else []) + Filter(lines[1..], term)
  }

  /** A line is shown exactly when it is in the transcript and matches. */
  lemma {:induction false} FilterMembership(lines: seq<Line>, term: string, line: Line)
    ensures line in Filter(lines, term) <==> line in lines && Matches(line, term)
  {
    if lines != [] {
      FilterMembership(lines[1..], term, line);
      assert lines == [lines[0]] + lines[1..];
    }
  }

  /** Filtering keeps the order: it filters each part of a transcript separately. */
  lemma {:induction false} FilterAppend(a: seq<Line>, b: seq<Line>, term: string)
    ensures Filter(a + b, term) == Filter(a, term) + Filter(b, term)
  {
    if a == [] {
      assert a + b == b;
    } else {
      var ab := a + b;
      var head := if Matches(a[0], term) then [a[0]] else [];
      assert ab[0] == a[0] && ab[1..] == a[1..] + b;
      assert Filter(ab, term) == head + Filter(a[1..] + b, term);
      FilterAppend(a[1..], b, term);
      assert Filter(a, term) == head + Filter(a[1..], term);
    }
  }

  /** Nothing is dropped exactly when every line matches. */
  lemma {:induction false} FilterKeepsAllIff(lines: seq<Line>, term: string)
    ensures Filter(lines, term) == lines <==> forall k :: 0 <= k < |lines| ==> Matches(lines[k], term)
  {
    if lines != [] {
      FilterKeepsAllIff(lines[1..], term);
      if !Matches(lines[0], term) {
        assert |Filter(lines, term)| < |lines|;
      } else {
        assert forall k :: 1 <= k < |lines| ==> lines[k] == lines[1..][k - 1];
      }
    }
  }

  /** An empty search box shows the whole transcript. */
  lemma EmptyTermKeepsAll(lines: seq<Line>)
    ensures Filter(lines, "") == lines
  {
    forall k | 0 <= k < |lines|
      ensures Matches(lines[k], "")
    {
      Text.ContainsEmpty(Text.Lower(lines[k].text));
    }
    FilterKeepsAllIff(lines, "");
  }

  /** The search ignores case: two terms with the same lower-case form filter alike. */
  lemma {:induction false} FilterIgnoresCase(lines: seq<Line>, t1: string, t2: string)
    requires Text.Lower(t1) == Text.Lower(t2)
    ensures Filter(lines, t1) == Filter(lines, t2)
  {
    if lines != [] {
      FilterIgnoresCase(lines[1..], t1, t2);
    }
  }

  /** Searching for the lower-cased term is the same search. */
  lemma FilterLowerTerm(lines: seq<Line>, term: string)
    ensures Filter(lines, Text.Lower(term)) == Filter(lines, term)
  {
    Text.LowerIdempotent(term);
    FilterIgnoresCase(lines, Text.Lower(term), term);
  }

  /** Searching the shown lines again with the same term shows the same lines. */
  lemma {:induction false} FilterIdempotent(lines: seq<Line>, term: string)
    ensures Filter(Filter(lines, term), term) == Filter(lines, term)
  {
    FilterKeepsAllIff(Filter(lines, term), term);
  }

  // -------------------------------------------------------------- highlight

  /** A shown line is highlighted when the term is non-empty and its text (not its speaker) includes it. */
  predicate Highlighted(line: Line, term: string)
  {
    term != "" && Text.Contains(Text.Lower(line.text), Text.Lower(term))
  }

  /** Every highlighted line is one the search shows. */
  lemma HighlightedIsShown(lines: seq<Line>, term: string, line: Line)
    requires line in lines && Highlighted(line, term)
    ensures line in Filter(lines, term)
  {
    FilterMembership(lines, term, line);
  }

  /**
   * A shown line is left unhighlighted exactly when the term is empty or only
   * its speaker includes the term.
   */
  lemma ShownNotHighlighted(line: Line, term: string)
    requires Matches(line, term)
    ensures !Highlighted(line, term)
        <==> term == "" || !Text.Contains(Text.Lower(line.text), Text.Lower(term))
    ensures term != "" && !Highlighted(line, term) ==> Text.Contains(Text.Lower(line.speaker), Text.Lower(term))
  {
  }

  // ------------------------------------------------------------------ state

  /** The component's state: playing or paused, the active line and the search box. */
  class Player {
    var isPlaying: bool
    var activeLineId: Option<int>
    var searchTerm: string

    /** Paused, the first line active, an empty search box. */
    constructor ()
      ensures !isPlaying && activeLineId == Some(1) && searchTerm == ""
    {
      isPlaying := false;
      activeLineId := Some(1);
      searchTerm := "";
    }

    /** The lines on screen. */
    function Shown(): seq<Line>
      reads this
    {
      Filter(MockTranscript, searchTerm)
    }

    predicate IsActive(line: Line)
      reads this
    {
      activeLineId == Some(line.id)
    }

    predicate IsHighlighted(line: Line)
      reads this
    {
      Highlighted(line, searchTerm)
    }

    /**
     * Clicking a line makes it the active one and changes nothing else; the
     * seek to `timestamp` is only logged.
     */
    method ClickLine(timestamp: int, id: int)
      modifies this
      ensures activeLineId == Some(id)
      ensures isPlaying == old(isPlaying) && searchTerm == old(searchTerm)
    {
      activeLineId := Some(id);
    }

    /** The play button flips between playing and paused. */
    method TogglePlay()
      modifies this
      ensures isPlaying == !old(isPlaying)
      ensures activeLineId == old(activeLineId) && searchTerm == old(searchTerm)
    {
      isPlaying := !isPlaying;
    }

    /** Typing in the search box replaces the term; the active line stays, shown or not. */
    method SetSearchTerm(term: string)
      modifies this
      ensures searchTerm == term
      ensures isPlaying == old(isPlaying) && activeLineId == old(activeLineId)
    {
      searchTerm := term;
    }
  }

  /** After a click on a shown line, that line and no other shown line is active. */
  lemma ClickedLineIsOnlyActive(p: Player, line: Line)
    requires line in p.Shown() && p.activeLineId == Some(line.id)
    ensures forall m :: m in p.Shown() ==> (p.IsActive(m) <==> m == line)
  {
    MockIdsDistinct();
    forall m | m in p.Shown()
      ensures p.IsActive(m) <==> m == line
    {
      FilterMembership(MockTranscript, p.searchTerm, m);
      FilterMembership(MockTranscript, p.searchTerm, line);
    }
  }
}
