/** How a player's hand is shown in chat: the cards sorted, split into runs
    of one suit, one line per run. */
module Players {
  import opened Outcomes
  import opened Text
  import opened Cards

  /** The first index from `i` on whose card differs in suit from the first
      card, or `|cards|` when there is none: the loop of `add_hand`. */
  function SuitBreak(cards: seq<Card>, i: nat): (k: nat)
    requires 1 <= i <= |cards|
    requires forall j :: 1 <= j < i ==> cards[j].suite == cards[0].suite
    ensures i <= k <= |cards|
    ensures forall j :: 1 <= j < k ==> cards[j].suite == cards[0].suite
    ensures k < |cards| ==> cards[k].suite != cards[0].suite
    decreases |cards| - i
  {
    if i == |cards| then i
    else if cards[0].suite != cards[i].suite then i
    else SuitBreak(cards, i + 1)
  }

  /** `add_hand`: the cards split into maximal runs of one suit, in order.
      The empty list gives one empty run. */
  function AddHand(cards: seq<Card>): (groups: seq<seq<Card>>)
    ensures Flatten(groups) == cards
    ensures |groups| >= 1
    ensures forall g, j :: 0 <= g < |groups| && 0 <= j < |groups[g]| ==>
              groups[g][j].suite == groups[g][0].suite
    ensures |cards| > 0 ==> forall g :: 0 <= g < |groups| ==> |groups[g]| > 0
    ensures |cards| > 0 ==> groups[0][0] == cards[0]
    ensures forall f, g :: 0 <= f < g < |groups| && g == f + 1 ==>
              |groups[f]| > 0 && |groups[g]| > 0 && groups[g][0].suite != groups[f][0].suite
    ensures |cards| == 0 ==> groups == [[]]
    decreases |cards|
  {
    if |cards| <= 1 then [cards]
    else
      var k := SuitBreak(cards, 1);
      if k < |cards| then
        var rest := AddHand(cards[k..]);
        assert cards == cards[..k] + cards[k..];
        assert ([cards[..k]] + rest)[1..] == rest;
        [cards[..k]] + rest
      else [cards]
  }

  /** Runs whose first suits strictly increase in rank. */
  ghost predicate RanksIncrease(groups: seq<seq<Card>>)
  {
    forall g, h :: 0 <= g < h < |groups| && |groups[g]| > 0 && |groups[h]| > 0 ==>
      Rank(groups[g][0].suite) < Rank(groups[h][0].suite)
  }

  lemma PrependRun(first: seq<Card>, rest: seq<seq<Card>>)
    requires |first| > 0 && |rest| > 0 && |rest[0]| > 0
    requires RanksIncrease(rest)
    requires Rank(first[0].suite) < Rank(rest[0][0].suite)
    ensures RanksIncrease([first] + rest)
  {
    var groups: seq<seq<Card>> := [first] + rest;
    forall g: int, h: int | 0 <= g < h < |groups| && |groups[g]| > 0 && |groups[h]| > 0
      ensures Rank(groups[g][0].suite) < Rank(groups[h][0].suite)
    {
      assert groups[h] == rest[h - 1];
      if g > 0 {
        assert groups[g] == rest[g - 1];
      }
    }
  }

  /** In sorted cards the first card of a new suit ranks above the first
      card. */
  lemma SortedBreakRanksHigher(cards: seq<Card>, k: nat)
    requires SortedCards(cards) && 0 < k < |cards|
    requires cards[k].suite != cards[0].suite
    ensures Rank(cards[0].suite) < Rank(cards[k].suite)
  {
    assert !CardLess(cards[k], cards[0]);
  }

  /** For sorted cards the runs come in strictly increasing suit order, so
      each suit has at most one run. */
  lemma {:induction false} SortedRunsIncrease(cards: seq<Card>)
    requires SortedCards(cards)
    ensures RanksIncrease(AddHand(cards))
    decreases |cards|
  {
    if |cards| > 1 {
      var k := SuitBreak(cards, 1);
      if k < |cards| {
        SortedBreakRanksHigher(cards, k);
        assert SortedCards(cards[k..]);
        SortedRunsIncrease(cards[k..]);
        PrependRun(cards[..k], AddHand(cards[k..]));
      }
    }
  }

  /** The values of a run, each as text. */
  function ValueTexts(run: seq<Card>): (texts: seq<string>)
    ensures |texts| == |run|
  {
    seq(|run|, j requires 0 <= j < |run| => IntToDecimal(run[j].value))
  }

  /** One line of the listing: "- ", the run's values separated by spaces,
      then the icon of the run's suit. */
  function RunLine(run: seq<Card>): (line: string)
    requires |run| > 0
    ensures |line| >= 2 + |Icon(run[0].suite)|
    ensures line[..2] == "- "
    ensures line[|line| - |Icon(run[0].suite)|..] == Icon(run[0].suite)
  {
    "- " + Join(" ", ValueTexts(run)) + Icon(run[0].suite)
  }

  /** Between the "- " and the icon, a run's line holds each card's value
      in turn: value `j` can be read at its offset in the space-joined
      values, shifted past the "- ". */
  lemma RunLineShowsValue(run: seq<Card>, j: nat)
    requires j < |run|
    ensures ShowsAt(RunLine(run), 2 + PartOffset(" ", ValueTexts(run), j), IntToDecimal(run[j].value))
  {
    var texts := ValueTexts(run);
    JoinHoldsPart(" ", texts, j);
    ShowsInside("- ", Join(" ", texts), Icon(run[0].suite), PartOffset(" ", texts, j), texts[j]);
  }

  /** Neighbouring values in a run's line are separated by exactly one
      space. */
  lemma RunLineSeparatesValues(run: seq<Card>, j: nat)
    requires j + 1 < |run|
    ensures var texts := ValueTexts(run);
            ShowsAt(RunLine(run), 2 + PartOffset(" ", texts, j) + |texts[j]|, " ")
            && PartOffset(" ", texts, j) + |texts[j]| + 1 == PartOffset(" ", texts, j + 1)
  {
    var texts := ValueTexts(run);
    var off := PartOffset(" ", texts, j) + |texts[j]|;
    JoinSeparates(" ", texts, j);
    assert ShowsAt(Join(" ", texts), off, " ");
    ShowsInside("- ", Join(" ", texts), Icon(run[0].suite), off, " ");
  }

  /** The lines of the listing, one per run. */
  function RunLines(groups: seq<seq<Card>>): (lines: seq<string>)
    requires forall g :: 0 <= g < |groups| ==> |groups[g]| > 0
    ensures |lines| == |groups|
    ensures forall g :: 0 <= g < |groups| ==> |lines[g]| >= 2 && lines[g][..2] == "- "
  {
    seq(|groups|, g requires 0 <= g < |groups| => RunLine(groups[g]))
  }

  /** `format_cards`: one line per run of the sorted cards, joined by
      newlines. With no cards the first card of the single empty run does
      not exist, which is `None` here. */
  function FormatCards(cards: seq<Card>): (text: Option<string>)
    ensures text.None? <==> |cards| == 0
  {
    var groups := AddHand(SortCards(cards));
    if |cards| == 0 then None
    else
      Some(Join("\n", RunLines(groups)))
  }

  /** The runs listed for a non-empty hand: one per suit present, in suit
      order, each of a single suit, together holding every card of the
      hand. */
  lemma ListedRuns(cards: seq<Card>)
    requires |cards| > 0
    ensures var groups := AddHand(SortCards(cards));
            && (forall g :: 0 <= g < |groups| ==> |groups[g]| > 0)
            && multiset(Flatten(groups)) == multiset(cards)
            && RanksIncrease(groups)
            && (forall g, j :: 0 <= g < |groups| && 0 <= j < |groups[g]| ==> groups[g][j].suite == groups[g][0].suite)
  {
    SortedRunsIncrease(SortCards(cards));
  }

  /** In the joined lines of any runs, run `g`'s line sits at the offset
      where the g-th line starts. */
  lemma ListingShowsRun(groups: seq<seq<Card>>, g: nat)
    requires forall h :: 0 <= h < |groups| ==> |groups[h]| > 0
    requires g < |groups|
    ensures ShowsAt(Join("\n", RunLines(groups)), PartOffset("\n", RunLines(groups), g), RunLine(groups[g]))
  {
    var lines := RunLines(groups);
    assert lines[g] == RunLine(groups[g]);
    JoinHoldsPart("\n", lines, g);
  }

  /** Every run of the sorted hand shows up in the listing as its own line
      (which starts with "- " and ends with the run's icon, by `RunLine`),
      at the offset where the g-th line of the joined text starts. */
  lemma FormatCardsShowsRun(cards: seq<Card>, g: nat)
    requires |cards| > 0
    requires g < |AddHand(SortCards(cards))|
    ensures FormatCards(cards).Some?
    ensures var groups := AddHand(SortCards(cards));
            ShowsAt(FormatCards(cards).value, PartOffset("\n", RunLines(groups), g), RunLine(groups[g]))
  {
    var groups := AddHand(SortCards(cards));
    ListingShowsRun(groups, g);
    assert FormatCards(cards) == Some(Join("\n", RunLines(groups)));
  }

  /** In the joined lines of any runs, value `j` of run `g` sits inside
      that run's line: past the line's offset and the "- ", at the value's
      place among the space-joined values of the run. */
  lemma ListingShowsValue(groups: seq<seq<Card>>, g: nat, j: nat)
    requires forall h :: 0 <= h < |groups| ==> |groups[h]| > 0
    requires g < |groups| && j < |groups[g]|
    ensures ShowsAt(Join("\n", RunLines(groups)),
                    PartOffset("\n", RunLines(groups), g) + 2 + PartOffset(" ", ValueTexts(groups[g]), j),
                    IntToDecimal(groups[g][j].value))
  {
    ListingShowsRun(groups, g);
    RunLineShowsValue(groups[g], j);
    ShowsWithin(Join("\n", RunLines(groups)), PartOffset("\n", RunLines(groups), g), RunLine(groups[g]),
                2 + PartOffset(" ", ValueTexts(groups[g]), j), IntToDecimal(groups[g][j].value));
  }

  /** Every card's value appears in the listing of a hand, inside the line
      of its run. */
  lemma FormatCardsShowsValue(cards: seq<Card>, g: nat, j: nat)
    requires |cards| > 0
    requires g < |AddHand(SortCards(cards))|
    requires j < |AddHand(SortCards(cards))[g]|
    ensures FormatCards(cards).Some?
    ensures var groups := AddHand(SortCards(cards));
            ShowsAt(FormatCards(cards).value,
                    PartOffset("\n", RunLines(groups), g) + 2 + PartOffset(" ", ValueTexts(groups[g]), j),
                    IntToDecimal(groups[g][j].value))
  {
    var groups := AddHand(SortCards(cards));
    ListingShowsValue(groups, g, j);
    assert FormatCards(cards) == Some(Join("\n", RunLines(groups)));
  }

  /** `add_hand([])` is a single empty run; a single card is a single run. */
  lemma AddHandSmall(c: Card)
    ensures AddHand([]) == [[]]
    ensures AddHand([c]) == [[c]]
  {
  }
}
