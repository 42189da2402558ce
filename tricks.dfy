/** The trick bookkeeping of a Crew9 game, as functions of the part of the
    game state that play changes: who leads each trick, which suit was led,
    which cards a seat may play, and what accepting a card does. The class
    `Crew.Game` keeps these values in its fields. */
module Tricks {
  import opened Outcomes
  import opened Cards

  /** The size of the deck; the round is lost once fewer cards than players
      remain unplayed. */
  const DeckSize: int := 40

  /** The state of play. Seats are the positions 0 .. n-1 of the player
      list, and `n` is `|played|`.
      - `played[p][k]`: the card seat `p` played into trick `k`;
      - `winners[k]`: the seat that won trick `k`;
      - `next`: the seat expected to play. */
  datatype Table = Table(commander: nat, played: seq<seq<Card>>, winners: seq<nat>, next: nat)

  /** At least one seat, and every seat number in range. */
  ghost predicate WellFormed(t: Table)
  {
    && |t.played| >= 1
    && t.commander < |t.played|
    && t.next < |t.played|
    && forall k :: 0 <= k < |t.winners| ==> t.winners[k] < |t.played|
  }

  /** `_handnum`: the trick the next seat is about to play into. */
  function HandNum(t: Table): nat
    requires t.next < |t.played|
  {
    |t.played[t.next]|
  }

  /** `_get_lead(handnum)`: the commander leads the first trick and the
      winner of each trick leads the one after it. `None` stands for the
      `IndexError` raised when the previous trick has no winner yet. */
  function GetLead(t: Table, handnum: nat): (r: Option<nat>)
    ensures WellFormed(t) && r.Some? ==> r.value < |t.played|
  {
    if handnum == 0 then Some(t.commander)
    else if handnum - 1 < |t.winners| then Some(t.winners[handnum - 1])
    else None
  }

  /** `_hand_started(handnum)`: has the leader of the trick played into it? */
  function HandStarted(t: Table, handnum: nat): (r: Option<bool>)
    requires WellFormed(t)
    ensures r.Some? <==> GetLead(t, handnum).Some?
    ensures r == Some(true) <==> GetLead(t, handnum).Some? && handnum < |t.played[GetLead(t, handnum).value]|
  {
    match GetLead(t, handnum)
    case None => None
    case Some(lead) => Some(handnum < |t.played[lead]|)
  }

  /** `_hand_finished(handnum)`: does the trick have a winner? */
  predicate HandFinished(t: Table, handnum: nat)
  {
    handnum < |t.winners|
  }

  /** `_lead_suit(handnum)`: the suit of the card the trick's leader played
      into it; `None` where the source raises `IndexError`. */
  function LeadSuit(t: Table, handnum: nat): (r: Option<Suite>)
    requires WellFormed(t)
    ensures r.Some? <==> HandStarted(t, handnum) == Some(true)
    ensures r.Some? ==> r.value == t.played[GetLead(t, handnum).value][handnum].suite
  {
    match GetLead(t, handnum)
    case None => None
    case Some(lead) =>
      if handnum < |t.played[lead]| then Some(t.played[lead][handnum].suite) else None
  }

  // ---- legal cards ----------------------------------------------------

  /** The cards of `hand` of suite `s`, in hand order. */
  function FollowSuit(hand: seq<Card>, s: Suite): (r: seq<Card>)
    ensures forall c :: multiset(r)[c] == if c.suite == s then multiset(hand)[c] else 0
    ensures forall c :: c in r <==> c in hand && c.suite == s
  {
    if |hand| == 0 then []
    else
      var rest := FollowSuit(hand[1..], s);
      assert hand == [hand[0]] + hand[1..];
      if hand[0].suite == s then [hand[0]] + rest else rest
  }

  /** `_get_valid(player, lead)`: when a suit was led and the hand holds
      cards of it, exactly those cards; otherwise the whole hand. */
  function GetValid(hand: seq<Card>, lead: Option<Suite>): (r: seq<Card>)
    ensures multiset(r) <= multiset(hand)
    ensures lead.Some? && (exists c :: c in hand && c.suite == lead.value) ==>
              forall c :: c in r <==> c in hand && c.suite == lead.value
    ensures (lead.None? || forall c :: c in hand ==> c.suite != lead.value) ==> r == hand
  {
    if lead.Some? then
      var follow := FollowSuit(hand, lead.value);
      if |follow| > 0 then follow else hand
    else hand
  }

  /** The cards `play` accepts from the next seat holding `hand`: the led
      suit is looked up only when the trick has started. `None` where
      `_hand_started` raises. */
  function ValidPlays(t: Table, hand: seq<Card>): (r: Option<seq<Card>>)
    requires WellFormed(t)
    ensures r.Some? <==> HandStarted(t, HandNum(t)).Some?
    ensures r.Some? ==> r.value == GetValid(hand, LeadSuit(t, HandNum(t)))
  {
    var h := HandNum(t);
    match HandStarted(t, h)
    case None => None
    case Some(started) => Some(GetValid(hand, if started then LeadSuit(t, h) else None))
  }

  // ---- accepting a card -----------------------------------------------

  /** Does the card about to be played close the trick? It does when the
      seat after the next one has already played into it. */
  predicate TrickCompletes(t: Table)
    requires t.next < |t.played|
  {
    HandNum(t) < |t.played[(t.next + 1) % |t.played|]|
  }

  /** What `_accept_play` needs in order not to fail half way: when the
      trick completes, every other seat has played into it (so the column
      of the trick can be read) and the trick is the next one without a
      winner (the assertion at the end of the update). */
  ghost predicate NoCrash(t: Table)
    requires t.next < |t.played|
  {
    TrickCompletes(t) ==>
      && |t.winners| == HandNum(t)
      && forall p :: 0 <= p < |t.played| && p != t.next ==> |t.played[p]| > HandNum(t)
  }

  /** The cards played into trick `h`, in seat order. */
  function Column(played: seq<seq<Card>>, h: nat): (col: seq<Card>)
    requires forall p :: 0 <= p < |played| ==> |played[p]| > h
    ensures |col| == |played|
    ensures forall p :: 0 <= p < |played| ==> col[p] == played[p][h]
  {
    seq(|played|, p requires 0 <= p < |played| => played[p][h])
  }

  /** `_accept_play(card)`: the card is appended to the next seat's plays.
      When this closes the trick, the winner of the trick's column,
      compared against the led suit, is recorded and leads next; otherwise
      the turn passes to the following seat. */
  function AcceptPlay(t: Table, card: Card): (r: Table)
    requires WellFormed(t) && NoCrash(t)
    ensures WellFormed(r) && r.commander == t.commander && |r.played| == |t.played|
    ensures r.played == t.played[t.next := t.played[t.next] + [card]]
    ensures TrickCompletes(t) ==> r.winners == t.winners + [r.next] && |r.winners| == HandNum(t) + 1
    ensures !TrickCompletes(t) ==> r.winners == t.winners && r.next == (t.next + 1) % |t.played|
  {
    var h := HandNum(t);
    var played := t.played[t.next := t.played[t.next] + [card]];
    if TrickCompletes(t) then
      var mid := t.(played := played);
      assert LeadSuit(mid, h).Some?;
      var w := GetWinner(Column(played, h), LeadSuit(mid, h).value);
      Table(t.commander, played, t.winners + [w], w)
    else
      Table(t.commander, played, t.winners, (t.next + 1) % |t.played|)
  }

  /** The led suit against which the closing card's trick was decided. */
  function ClosingLead(t: Table, card: Card): (s: Suite)
    requires WellFormed(t) && NoCrash(t) && TrickCompletes(t)
  {
    var mid := t.(played := t.played[t.next := t.played[t.next] + [card]]);
    LeadSuit(mid, HandNum(t)).value
  }

  /** The seat recorded as the winner of a closed trick played the trick's
      highest Rocket or, with no Rocket in it, its highest card of the led
      suit (the leader's card is of that suit); and no card of the trick
      takes the winner's card. */
  lemma ClosedTrickWinner(t: Table, card: Card)
    requires WellFormed(t) && NoCrash(t) && TrickCompletes(t)
    ensures var r := AcceptPlay(t, card);
            var col := Column(r.played, HandNum(t));
            var lead := ClosingLead(t, card);
            && HasSuite(col, lead)
            && r.next == GetWinner(col, lead)
            && IsTrickWinner(col, lead, r.next)
            && (DecidingSuite(col, lead) == Rocket || DecidingSuite(col, lead) == lead)
            && forall p :: 0 <= p < |col| ==> !Takes(col[p], col[r.next], lead)
  {
    var r := AcceptPlay(t, card);
    var h := HandNum(t);
    var col := Column(r.played, h);
    var lead := ClosingLead(t, card);
    var mid := t.(played := r.played);
    var l := GetLead(mid, h).value;
    assert col[l].suite == lead;
    GetWinnerIsTrickWinner(col, lead);
    forall p | 0 <= p < |col| ensures !Takes(col[p], col[r.next], lead) {
      WinnerIsNotTaken(col, lead, p);
    }
  }

  // ---- the shape of play ----------------------------------------------

  /** Position of seat `p` in turn order counted from seat `from`. */
  function Seat(p: nat, from: nat, n: nat): (k: nat)
    requires p < n && from < n
    ensures k < n
  {
    if p >= from then p - from else p + n - from
  }

  /** 1 when seat `p` comes before seat `next` in turn order counted from
      `opener` (it has already played into the current trick), else 0. */
  function Ahead(p: nat, opener: nat, next: nat, n: nat): nat
    requires p < n && opener < n && next < n
  {
    if Seat(p, opener, n) < Seat(next, opener, n) then 1 else 0
  }

  /** The invariant of play. `opener` is the seat that opened the current
      trick. With two or more seats, every seat has played into each
      finished trick, and into the current trick exactly the seats from
      `opener` up to but not including `next` have played. With a single
      seat, no trick is ever closed and the seat has played at most once. */
  ghost predicate Shape(t: Table, opener: nat)
  {
    && WellFormed(t)
    && opener < |t.played|
    && if |t.played| == 1 then t.winners == [] && |t.played[0]| <= 1
       else forall p :: 0 <= p < |t.played| ==>
              |t.played[p]| == |t.winners| + Ahead(p, opener, t.next, |t.played|)
  }

  /** Before the first card: nothing played, nothing won, and the opener is
      the seat to play. */
  lemma FreshShape(t: Table)
    requires WellFormed(t) && t.winners == []
    requires forall p :: 0 <= p < |t.played| ==> t.played[p] == []
    ensures Shape(t, t.next)
  {
  }

  /** The seat after `q`: `(q + 1) % n` without the division. */
  lemma NextSeatIndex(q: nat, n: nat)
    requires q < n
    ensures (q + 1) % n == if q + 1 < n then q + 1 else 0
  {
    if q + 1 == n {
      assert (q + 1) % n == n % n == 0;
    }
  }

  /** The seat after `q` comes one place later in turn order, except that
      after the last place comes the opener again. */
  lemma SeatAfter(q: nat, from: nat, n: nat)
    requires n >= 2 && q < n && from < n
    ensures Seat((q + 1) % n, from, n) == if Seat(q, from, n) == n - 1 then 0 else Seat(q, from, n) + 1
  {
    NextSeatIndex(q, n);
    var r := if q + 1 < n then q + 1 else 0;
    assert Seat((q + 1) % n, from, n) == Seat(r, from, n);
  }

  lemma SeatInjective(p: nat, q: nat, from: nat, n: nat)
    requires p < n && q < n && from < n
    requires Seat(p, from, n) == Seat(q, from, n)
    ensures p == q
  {
  }

  /** With two or more seats, the next seat is about to play into the first
      trick without a winner; this is the equivalence the source notes
      beside `_handnum`. */
  lemma HandNumCountsWinners(t: Table, opener: nat)
    requires Shape(t, opener) && |t.played| >= 2
    ensures HandNum(t) == |t.winners|
  {
    assert |t.played[t.next]| == |t.winners| + Ahead(t.next, opener, t.next, |t.played|);
  }

  /** Under the shape of play the seat after the next one has played into
      the current trick exactly when the next seat is last in turn order. */
  lemma SuccessorPlayed(t: Table, opener: nat)
    requires Shape(t, opener) && |t.played| >= 2
    ensures TrickCompletes(t) <==> Seat(t.next, opener, |t.played|) == |t.played| - 1
  {
    var n := |t.played|;
    var s := (t.next + 1) % n;
    HandNumCountsWinners(t, opener);
    SeatAfter(t.next, opener, n);
    assert |t.played[s]| == |t.winners| + Ahead(s, opener, t.next, n);
  }

  /** With two or more seats, a card closes the trick exactly when every
      other seat has already played into it. */
  lemma {:induction false} CompletesWhenAllPlayed(t: Table, opener: nat)
    requires Shape(t, opener) && |t.played| >= 2
    ensures TrickCompletes(t) <==> Seat(t.next, opener, |t.played|) == |t.played| - 1
    ensures TrickCompletes(t) <==>
              forall p :: 0 <= p < |t.played| && p != t.next ==> |t.played[p]| == HandNum(t) + 1
  {
    var n := |t.played|;
    var m := Seat(t.next, opener, n);
    SuccessorPlayed(t, opener);
    HandNumCountsWinners(t, opener);
    if m == n - 1 {
      forall p | 0 <= p < n && p != t.next ensures |t.played[p]| == HandNum(t) + 1 {
        assert |t.played[p]| == |t.winners| + Ahead(p, opener, t.next, n);
        if Seat(p, opener, n) == m {
          SeatInjective(p, t.next, opener, n);
        }
      }
    } else {
      var s := (t.next + 1) % n;
      SeatAfter(t.next, opener, n);
      assert s != t.next;
      assert |t.played[s]| != HandNum(t) + 1;
    }
  }

  /** Reachable play never fails inside `_accept_play`. */
  lemma ShapeNoCrash(t: Table, opener: nat)
    requires Shape(t, opener)
    ensures NoCrash(t)
  {
    if |t.played| >= 2 {
      CompletesWhenAllPlayed(t, opener);
      HandNumCountsWinners(t, opener);
    }
  }

  /** With two or more seats `_hand_started` never raises; a single seat
      gets past it only before its first card. */
  lemma ShapeLeadDefined(t: Table, opener: nat)
    requires Shape(t, opener)
    ensures HandStarted(t, HandNum(t)).Some? <==> |t.played| >= 2 || |t.played[0]| == 0
  {
    if |t.played| >= 2 {
      HandNumCountsWinners(t, opener);
    }
  }

  /** The seat that opens the trick after `card` is accepted. */
  function NextOpener(t: Table, opener: nat, card: Card): nat
    requires WellFormed(t) && NoCrash(t)
  {
    if TrickCompletes(t) then AcceptPlay(t, card).next else opener
  }

  /** A closing card leaves every seat with one more finished trick and
      nobody ahead in the next one. */
  lemma ClosedTrickShape(t: Table, opener: nat, card: Card)
    requires Shape(t, opener) && |t.played| >= 2 && NoCrash(t) && TrickCompletes(t)
    ensures Shape(AcceptPlay(t, card), AcceptPlay(t, card).next)
  {
    var r := AcceptPlay(t, card);
    var n := |t.played|;
    CompletesWhenAllPlayed(t, opener);
    HandNumCountsWinners(t, opener);
    forall p | 0 <= p < n
      ensures |r.played[p]| == |r.winners| + Ahead(p, r.next, r.next, n)
    {
      assert Ahead(p, r.next, r.next, n) == 0;
    }
  }

  /** A card that does not close the trick moves the next seat one place on
      in turn order. */
  lemma OpenTrickShape(t: Table, opener: nat, card: Card)
    requires Shape(t, opener) && |t.played| >= 2 && NoCrash(t) && !TrickCompletes(t)
    ensures Shape(AcceptPlay(t, card), opener)
  {
    var r := AcceptPlay(t, card);
    var n := |t.played|;
    var m := Seat(t.next, opener, n);
    SuccessorPlayed(t, opener);
    SeatAfter(t.next, opener, n);
    assert Seat(r.next, opener, n) == m + 1;
    forall p | 0 <= p < n
      ensures |r.played[p]| == |r.winners| + Ahead(p, opener, r.next, n)
    {
      assert |t.played[p]| == |t.winners| + Ahead(p, opener, t.next, n);
      if p != t.next && Seat(p, opener, n) == m {
        SeatInjective(p, t.next, opener, n);
      }
    }
  }

  /** Accepting a card that passed validation keeps the shape of play. */
  lemma {:induction false} AcceptPlayKeepsShape(t: Table, opener: nat, card: Card)
    requires Shape(t, opener) && HandStarted(t, HandNum(t)).Some?
    ensures NoCrash(t)
    ensures Shape(AcceptPlay(t, card), NextOpener(t, opener, card))
  {
    ShapeNoCrash(t, opener);
    if |t.played| >= 2 {
      if TrickCompletes(t) {
        ClosedTrickShape(t, opener, card);
      } else {
        OpenTrickShape(t, opener, card);
      }
    }
  }

  /** The seat `_get_lead` computes for the current trick, when it computes
      one, is the seat that opened it. */
  predicate LeadIsOpener(t: Table, opener: nat)
    requires t.next < |t.played|
  {
    GetLead(t, HandNum(t)).Some? ==> GetLead(t, HandNum(t)).value == opener
  }

  /** When the computed leader opened the current trick, `_hand_started`
      answers its question: has anyone played a card into the trick? The
      opener plays first, so someone has exactly when the opener has, and
      the led suit is that of the opener's card. */
  lemma OpenerPlaysFirst(t: Table, opener: nat)
    requires Shape(t, opener) && GetLead(t, HandNum(t)) == Some(opener)
    ensures (exists p :: 0 <= p < |t.played| && HandNum(t) < |t.played[p]|) <==> HandNum(t) < |t.played[opener]|
    ensures HandStarted(t, HandNum(t)) == Some(exists p :: 0 <= p < |t.played| && HandNum(t) < |t.played[p]|)
    ensures LeadSuit(t, HandNum(t)) ==
              if HandNum(t) < |t.played[opener]| then Some(t.played[opener][HandNum(t)].suite) else None
  {
    var n := |t.played|;
    if n >= 2 {
      HandNumCountsWinners(t, opener);
      if exists p :: 0 <= p < n && HandNum(t) < |t.played[p]| {
        var p :| 0 <= p < n && HandNum(t) < |t.played[p]|;
        assert |t.played[p]| == |t.winners| + Ahead(p, opener, t.next, n);
        assert |t.played[opener]| == |t.winners| + Ahead(opener, opener, t.next, n);
      }
    }
  }

  /** The cards `play` accepts: with the computed leader as opener, the
      suit of the opener's card is followed once anyone has played into the
      trick, and before that the whole hand may be played. */
  lemma LegalPlaysFollowOpener(t: Table, opener: nat, hand: seq<Card>)
    requires Shape(t, opener) && GetLead(t, HandNum(t)) == Some(opener)
    ensures ValidPlays(t, hand) ==
              Some(GetValid(hand, if HandNum(t) < |t.played[opener]| then Some(t.played[opener][HandNum(t)].suite) else None))
  {
    OpenerPlaysFirst(t, opener);
  }

  /** Accepting a card keeps the computed leader equal to the opener: a
      closing card makes its winner both the next seat and the leader of
      the next trick. */
  lemma AcceptPlayKeepsLead(t: Table, opener: nat, card: Card)
    requires Shape(t, opener) && HandStarted(t, HandNum(t)).Some? && LeadIsOpener(t, opener)
    ensures NoCrash(t)
    ensures LeadIsOpener(AcceptPlay(t, card), NextOpener(t, opener, card))
  {
    ShapeNoCrash(t, opener);
    var r := AcceptPlay(t, card);
    if |t.played| >= 2 {
      HandNumCountsWinners(t, opener);
      if TrickCompletes(t) {
        ClosedTrickShape(t, opener, card);
        HandNumCountsWinners(r, r.next);
      } else {
        OpenTrickShape(t, opener, card);
        HandNumCountsWinners(r, opener);
      }
    }
  }

  /** A lone seat stalls: after its first card no trick has closed, and
      `_hand_started` raises for every later card. */
  lemma SingleSeatStalls(t: Table, card: Card)
    requires WellFormed(t) && |t.played| == 1 && t.winners == [] && t.played[0] == []
    ensures NoCrash(t) && !TrickCompletes(t)
    ensures AcceptPlay(t, card).winners == []
    ensures HandStarted(AcceptPlay(t, card), HandNum(AcceptPlay(t, card))).None?
  {
  }

  // ---- the end of the round -------------------------------------------

  /** Number of cards played so far. */
  function TotalPlayed(played: seq<seq<Card>>): nat
  {
    if |played| == 0 then 0 else TotalPlayed(played[..|played| - 1]) + |played[|played| - 1]|
  }

  lemma {:induction false} TotalOfEqualRows(played: seq<seq<Card>>, k: nat)
    requires forall p :: 0 <= p < |played| ==> |played[p]| == k
    ensures TotalPlayed(played) == k * |played|
  {
    if |played| > 0 {
      TotalOfEqualRows(played[..|played| - 1], k);
    }
  }

  /** The source's deck-exhaustion test, `DECK_SIZE - len(played[0]) * n < n`,
      taken right after a trick closes with two or more seats, says that
      fewer unplayed cards than seats remain, so no further full trick can
      be played. */
  lemma ExhaustionMeansNoFullTrick(t: Table, opener: nat, card: Card)
    requires Shape(t, opener) && |t.played| >= 2 && TrickCompletes(t)
    ensures NoCrash(t)
    ensures var r := AcceptPlay(t, card);
            (DeckSize - |r.played[0]| * |r.played| < |r.played|) <==>
            (DeckSize - TotalPlayed(r.played) < |r.played|)
  {
    ShapeNoCrash(t, opener);
    AcceptPlayKeepsShape(t, opener, card);
    var r := AcceptPlay(t, card);
    var k := |r.winners|;
    assert Shape(r, r.next);
    forall p | 0 <= p < |r.played| ensures |r.played[p]| == k {
      assert Ahead(p, r.next, r.next, |r.played|) == 0;
    }
    TotalOfEqualRows(r.played, k);
  }
}
