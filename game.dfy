/** The `Game` object of a Crew9 round: seats join, cards are dealt, and
    cards are played trick by trick. Notifications to players are left out;
    randomness (the game id, the seat shuffle, the deck) arrives as
    parameters, and the mission's verdict as a function parameter. */
module Crew {
  import opened Outcomes
  import opened Text
  import opened Cards
  import opened GameIds
  import opened Tricks

  /** A player, identified by value. */
  type PlayerId = nat

  /** The states "waiting", "deal", "bid", "communicate" and "turn". */
  datatype Phase = Waiting | Dealing | Bidding | Communicating | Turn

  /** What the mission reports after a trick. */
  datatype Status = Win | Lose | Ongoing

  /** The mission: the initial impossible mission, a mission created from a
      mission number for the seats and commander of the moment, or a mission
      object supplied by the caller (opaque here). */
  datatype Mission = Impossible | Numbered(number: int, seats: seq<PlayerId>, commander: nat) | Supplied(handle: nat)

  /** The argument of `set_mission`: a mission number or a mission object. */
  datatype MissionChoice = ByNumber(number: int) | ByObject(mission: Mission)

  /** The exceptions the game raises. `OutOfTurn` is the `InvalidStateError`
      raised for a play out of turn, `NotValidPlay` the `ValueError` for a
      card that may not be played, `IndexError` the failure of `_get_lead`,
      `ZeroDivision` the deal without players. */
  datatype GameError = InvalidState | OutOfTurn | NotValidPlay | IndexError | ZeroDivision

  /** How a successful play ends: play goes on, or the round is won or lost. */
  datatype RoundOutcome = Continues | Won | Lost

  /** All fields of a game, as one value. */
  datatype Snapshot = Snapshot(
    gameId: int, players: seq<PlayerId>, commander: nat, hands: seq<seq<Card>>,
    mission: Mission, history: seq<(int, bool)>, state: Phase, nextPlayer: nat,
    playedCards: seq<seq<Card>>, handWinners: seq<nat>)

  /** The card whose holder becomes commander. */
  const CommanderCard := Card(4, Rocket)

  // ---- dealing --------------------------------------------------------

  /** `x * k`, by repeated addition, so that the bounds below are reasoned
      about step by step. */
  function Mul(x: nat, k: nat): nat
  {
    if k == 0 then 0 else Mul(x, k - 1) + x
  }

  lemma {:induction false} MulIsProduct(x: nat, k: nat)
    ensures Mul(x, k) == x * k
  {
    if k > 0 {
      MulIsProduct(x, k - 1);
    }
  }

  lemma {:induction false} MulMono(x: nat, k1: nat, k2: nat)
    requires k1 <= k2
    ensures Mul(x, k1) <= Mul(x, k2)
  {
    if k1 < k2 {
      MulMono(x, k1, k2 - 1);
    }
  }

  /** The least `b` with `n * b >= a`: `math.ceil(a / n)`, computed exactly. */
  function CeilDiv(a: nat, n: nat): (b: nat)
    requires n >= 1
    ensures Mul(n, b) >= a
    ensures b > 0 ==> Mul(n, b - 1) < a
    decreases a
  {
    if a == 0 then 0 else 1 + CeilDiv(if a >= n then a - n else 0, n)
  }

  lemma CeilMono(a1: nat, a2: nat, n: nat)
    requires n >= 1 && a1 <= a2
    ensures CeilDiv(a1, n) <= CeilDiv(a2, n)
  {
    var b1, b2 := CeilDiv(a1, n), CeilDiv(a2, n);
    if b1 > 0 && b1 - 1 >= b2 {
      MulMono(n, b2, b1 - 1);
      assert false;
    }
  }

  /** Adding `q` whole rows of `n` adds `q` to the ceiling. */
  lemma {:induction false} CeilShift(a: nat, q: nat, n: nat)
    requires n >= 1
    ensures CeilDiv(a + Mul(n, q), n) == CeilDiv(a, n) + q
  {
    if q > 0 {
      CeilShift(a, q - 1, n);
      assert a + Mul(n, q) == (a + Mul(n, q - 1)) + n;
    }
  }

  /** Adding fewer than `n` raises the ceiling by at most one. */
  lemma CeilSmallStep(a: nat, r: nat, n: nat)
    requires n >= 1 && r < n
    ensures CeilDiv(a, n) <= CeilDiv(a + r, n) <= CeilDiv(a, n) + 1
  {
    CeilMono(a, a + r, n);
    CeilMono(a + r, a + n, n);
    CeilShift(a, 1, n);
    assert Mul(n, 1) == n;
  }

  /** `math.ceil(len(deck) / n * i)`, the start of hand `i`. */
  function DealBound(len: nat, i: nat, n: nat): nat
    requires n >= 1
  {
    CeilDiv(Mul(len, i), n)
  }

  /** The bounds start at 0, end at the deck's length and never decrease. */
  lemma DealBoundsOrdered(len: nat, i: nat, n: nat)
    requires n >= 1 && i < n
    ensures DealBound(len, 0, n) == 0
    ensures DealBound(len, i, n) <= DealBound(len, i + 1, n) <= len
    ensures DealBound(len, n, n) == len
  {
    CeilMono(Mul(len, i), Mul(len, i + 1), n);
    MulMono(len, i + 1, n);
    CeilMono(Mul(len, i + 1), Mul(len, n), n);
    CeilShift(0, len, n);
    MulIsProduct(len, n);
    MulIsProduct(n, len);
  }

  /** The cards dealt to seat `i`, before sorting. */
  function HandSlice(deck: seq<Card>, i: nat, n: nat): (s: seq<Card>)
    requires n >= 1 && i < n
    ensures |s| == DealBound(|deck|, i + 1, n) - DealBound(|deck|, i, n)
  {
    DealBoundsOrdered(|deck|, i, n);
    deck[DealBound(|deck|, i, n)..DealBound(|deck|, i + 1, n)]
  }

  /** The deck cut into one consecutive slice per seat. */
  function DealSlices(deck: seq<Card>, n: nat): (slices: seq<seq<Card>>)
    requires n >= 1
    ensures |slices| == n
  {
    seq(n, i requires 0 <= i < n => HandSlice(deck, i, n))
  }

  /** The hands `deal` hands out: the slices, each sorted. */
  function DealHands(deck: seq<Card>, n: nat): (hands: seq<seq<Card>>)
    requires n >= 1
    ensures |hands| == n
  {
    seq(n, i requires 0 <= i < n => SortCards(HandSlice(deck, i, n)))
  }

  /** Hand `i` is sorted and holds the cards of slice `i`. */
  lemma DealtHand(deck: seq<Card>, n: nat, i: nat)
    requires n >= 1 && i < n
    ensures SortedCards(DealHands(deck, n)[i])
    ensures multiset(DealHands(deck, n)[i]) == multiset(HandSlice(deck, i, n))
    ensures |DealHands(deck, n)[i]| == DealBound(|deck|, i + 1, n) - DealBound(|deck|, i, n)
  {
    assert DealHands(deck, n)[i] == SortCards(HandSlice(deck, i, n));
    assert |multiset(DealHands(deck, n)[i])| == |multiset(HandSlice(deck, i, n))|;
  }

  /** Laying out one more slice appends the cards between its bounds. */
  lemma SliceStep(deck: seq<Card>, n: nat, i: nat)
    requires n >= 1 && 1 <= i <= n
    ensures DealBound(|deck|, i - 1, n) <= DealBound(|deck|, i, n) <= |deck|
    ensures Flatten(DealSlices(deck, n)[..i]) ==
              Flatten(DealSlices(deck, n)[..i - 1]) + deck[DealBound(|deck|, i - 1, n)..DealBound(|deck|, i, n)]
  {
    DealBoundsOrdered(|deck|, i - 1, n);
    var slices := DealSlices(deck, n);
    assert slices[..i] == slices[..i - 1] + [HandSlice(deck, i - 1, n)];
    FlattenAppend(slices[..i - 1], HandSlice(deck, i - 1, n));
  }

  lemma PrefixSplit(deck: seq<Card>, lo: nat, hi: nat)
    requires lo <= hi <= |deck|
    ensures deck[..hi] == deck[..lo] + deck[lo..hi]
  {
  }

  lemma {:induction false} SlicesPrefix(deck: seq<Card>, n: nat, i: nat)
    requires n >= 1 && i <= n
    ensures DealBound(|deck|, i, n) <= |deck|
    ensures Flatten(DealSlices(deck, n)[..i]) == deck[..DealBound(|deck|, i, n)]
  {
    if i == 0 {
      DealBoundsOrdered(|deck|, 0, n);
    } else {
      SlicesPrefix(deck, n, i - 1);
      SliceStep(deck, n, i);
      PrefixSplit(deck, DealBound(|deck|, i - 1, n), DealBound(|deck|, i, n));
    }
  }

  /** The slices, laid end to end, are the deck itself. */
  lemma SlicesCoverDeck(deck: seq<Card>, n: nat)
    requires n >= 1
    ensures Flatten(DealSlices(deck, n)) == deck
  {
    SlicesPrefix(deck, n, n);
    DealBoundsOrdered(|deck|, 0, n);
    assert DealSlices(deck, n)[..n] == DealSlices(deck, n);
  }

  lemma {:induction false} FlattenSameCards(hs1: seq<seq<Card>>, hs2: seq<seq<Card>>)
    requires |hs1| == |hs2|
    requires forall i :: 0 <= i < |hs1| ==> multiset(hs1[i]) == multiset(hs2[i])
    ensures multiset(Flatten(hs1)) == multiset(Flatten(hs2))
  {
    if |hs1| > 0 {
      FlattenSameCards(hs1[1..], hs2[1..]);
    }
  }

  /** Dealing hands out every card of the deck exactly once. */
  lemma DealIsPartition(deck: seq<Card>, n: nat)
    requires n >= 1
    ensures multiset(Flatten(DealHands(deck, n))) == multiset(deck)
  {
    var hands, slices := DealHands(deck, n), DealSlices(deck, n);
    forall i | 0 <= i < n ensures multiset(hands[i]) == multiset(slices[i]) {
      DealtHand(deck, n, i);
    }
    FlattenSameCards(hands, slices);
    SlicesCoverDeck(deck, n);
  }

  lemma DivSplit(len: nat, n: nat)
    requires n >= 1
    ensures Mul(n, len / n) + len % n == len && len % n < n
  {
    MulIsProduct(n, len / n);
  }

  /** Consecutive bounds are `len / n` apart or one more, and exactly
      `len / n` when `n` divides `len`. */
  lemma BoundGaps(len: nat, n: nat, i: nat)
    requires n >= 1 && i < n
    ensures DealBound(len, i, n) + len / n <= DealBound(len, i + 1, n) <= DealBound(len, i, n) + len / n + 1
    ensures len % n == 0 ==> DealBound(len, i + 1, n) == DealBound(len, i, n) + len / n
  {
    var q, r := len / n, len % n;
    var a := Mul(len, i);
    DivSplit(len, n);
    assert Mul(len, i + 1) == (a + r) + Mul(n, q);
    CeilShift(a + r, q, n);
    assert DealBound(len, i + 1, n) == CeilDiv(a + r, n) + q;
    assert DealBound(len, i, n) == CeilDiv(a, n);
    CeilSmallStep(a, r, n);
  }

  /** Every hand holds `len / n` cards or one more, and exactly `len / n`
      when the seats divide the deck. */
  lemma DealSizes(deck: seq<Card>, n: nat, i: nat)
    requires n >= 1 && i < n
    ensures |deck| / n <= |DealHands(deck, n)[i]| <= |deck| / n + 1
    ensures |deck| % n == 0 ==> |DealHands(deck, n)[i]| == |deck| / n
  {
    DealtHand(deck, n, i);
    BoundGaps(|deck|, n, i);
  }

  lemma {:induction false} FlattenHolds(hs: seq<seq<Card>>, c: Card)
    requires c in Flatten(hs)
    ensures exists i :: 0 <= i < |hs| && c in hs[i]
  {
    if c !in hs[0] {
      FlattenHolds(hs[1..], c);
      var i :| 0 <= i < |hs| - 1 && c in hs[1..][i];
      assert c in hs[i + 1];
    }
  }

  lemma {:induction false} FlattenCounts(hs: seq<seq<Card>>, c: Card, i: nat)
    requires i < |hs|
    ensures multiset(Flatten(hs))[c] >= multiset(hs[i])[c]
    ensures forall j :: 0 <= j < |hs| && j != i ==>
              multiset(Flatten(hs))[c] >= multiset(hs[i])[c] + multiset(hs[j])[c]
  {
    var rest := hs[1..];
    assert multiset(Flatten(hs)) == multiset(hs[0]) + multiset(Flatten(rest));
    if i == 0 {
      forall j | 0 < j < |hs|
        ensures multiset(Flatten(hs))[c] >= multiset(hs[0])[c] + multiset(hs[j])[c]
      {
        FlattenCounts(rest, c, j - 1);
      }
    } else {
      FlattenCounts(rest, c, i - 1);
      forall j | 0 < j < |hs| && j != i
        ensures multiset(Flatten(hs))[c] >= multiset(hs[i])[c] + multiset(hs[j])[c]
      {
        assert rest[j - 1] == hs[j];
      }
    }
  }

  /** A card that occurs once among the groups is in exactly one group. */
  lemma OnceInOneGroup(hs: seq<seq<Card>>, c: Card)
    requires multiset(Flatten(hs))[c] == 1
    ensures exists i :: 0 <= i < |hs| && c in hs[i]
    ensures forall i, j :: (0 <= i < |hs| && 0 <= j < |hs| && c in hs[i] && c in hs[j]) ==> i == j
  {
    FlattenHolds(hs, c);
    forall i, j | 0 <= i < |hs| && 0 <= j < |hs| && c in hs[i] && c in hs[j]
      ensures i == j
    {
      FlattenCounts(hs, c, i);
    }
  }

  /** A deck with one commander card deals it into exactly one hand. */
  lemma CommanderCardDealtOnce(deck: seq<Card>, n: nat)
    requires n >= 1 && multiset(deck)[CommanderCard] == 1
    ensures exists i :: 0 <= i < n && CommanderCard in DealHands(deck, n)[i]
    ensures forall i, j ::
              (0 <= i < n && 0 <= j < n && CommanderCard in DealHands(deck, n)[i] &&
               CommanderCard in DealHands(deck, n)[j]) ==> i == j
  {
    DealIsPartition(deck, n);
    OnceInOneGroup(DealHands(deck, n), CommanderCard);
  }

  /** `c` is the first seat holding the commander card, or `fallback` when
      no seat holds it. */
  ghost predicate FirstHolder(hands: seq<seq<Card>>, c: nat, fallback: nat)
  {
    if exists i :: 0 <= i < |hands| && CommanderCard in hands[i] then
      c < |hands| && CommanderCard in hands[c] &&
      forall j :: 0 <= j < c ==> CommanderCard !in hands[j]
    else c == fallback
  }

  /** The search in `deal`: the first seat whose hand holds the commander
      card, or `fallback` when none does. */
  method FindCommander(hands: seq<seq<Card>>, fallback: nat) returns (c: nat)
    ensures FirstHolder(hands, c, fallback)
  {
    c := fallback;
    var i := 0;
    while i < |hands|
      invariant 0 <= i <= |hands|
      invariant c == fallback
      invariant forall j :: 0 <= j < i ==> CommanderCard !in hands[j]
    {
      if CommanderCard in hands[i] {
        c := i;
        return;
      }
      i := i + 1;
    }
  }

  /** Every card played by a seat came from its hand. */
  ghost predicate FromHands(hands: seq<seq<Card>>, played: seq<seq<Card>>)
  {
    && |hands| == |played|
    && forall p, k :: 0 <= p < |played| && 0 <= k < |played[p]| ==> played[p][k] in hands[p]
  }

  /** Playing a card from one's own hand keeps every played card traceable
      to its hand. */
  lemma FromHandsAfterPlay(hands: seq<seq<Card>>, played: seq<seq<Card>>, p: nat, card: Card)
    requires FromHands(hands, played) && p < |played| && card in hands[p]
    ensures FromHands(hands, played[p := played[p] + [card]])
  {
    var after := played[p := played[p] + [card]];
    forall q, k | 0 <= q < |after| && 0 <= k < |after[q]| ensures after[q][k] in hands[q] {
      if q == p && k == |played[p]| {
      } else {
        assert after[q][k] == played[q][k];
      }
    }
  }

  // ---- the end of a play ----------------------------------------------

  /** What `play` does after the card is accepted: nothing more unless the
      trick `handnum` now has a winner; then the mission's status decides,
      and an ongoing mission is lost when fewer unplayed cards than seats
      remain. */
  function Settle(after: Table, handnum: nat, status: Status): (r: RoundOutcome)
    requires |after.played| >= 1
    ensures r != Continues ==> HandFinished(after, handnum)
    ensures r == Won <==> HandFinished(after, handnum) && status == Win
  {
    if !HandFinished(after, handnum) then Continues
    else match status
      case Win => Won
      case Lose => Lost
      case Ongoing =>
        if DeckSize - |after.played[0]| * |after.played| < |after.played| then Lost else Continues
  }

  /** Under the shape of play the round can only end on the card that
      closes a trick. */
  lemma SettleOnlyOnClosedTrick(t: Table, opener: nat, card: Card, status: Status)
    requires Shape(t, opener) && HandStarted(t, HandNum(t)).Some?
    ensures NoCrash(t)
    ensures !TrickCompletes(t) ==> Settle(Tricks.AcceptPlay(t, card), HandNum(t), status) == Continues
    ensures TrickCompletes(t) ==> HandFinished(Tricks.AcceptPlay(t, card), HandNum(t))
  {
    ShapeNoCrash(t, opener);
    if |t.played| >= 2 {
      HandNumCountsWinners(t, opener);
    }
  }

  /** The trick bookkeeping held in a game's fields. */
  function TableOf(f: Snapshot): Table
  {
    Table(f.commander, f.playedCards, f.handWinners, f.nextPlayer)
  }

  /** The invariant of a game, on the values of its fields; `opener` is the
      seat that opened the current trick. Before play starts nothing has
      been played; once dealt, every seat has a hand and the commander and
      the next player are seats; during play the trick bookkeeping has the
      shape of play and every played card came from its player's hand. */
  ghost predicate Consistent(f: Snapshot, opener: nat)
  {
    && 0 <= f.gameId < IdLimit
    && |f.playedCards| == |f.players|
    && (f.state == Waiting ==> f.commander == 0 && f.nextPlayer == 0)
    && (f.state == Waiting || f.state == Dealing || f.state == Bidding ==>
          f.handWinners == [] && forall p :: 0 <= p < |f.playedCards| ==> f.playedCards[p] == [])
    && (f.state != Waiting && |f.players| >= 1 ==>
          |f.hands| == |f.players| && f.commander < |f.players| && f.nextPlayer < |f.players|)
    && ((f.state == Communicating || f.state == Turn) && |f.players| >= 1 ==>
          Shape(TableOf(f), opener) && NoCrash(TableOf(f)) && FromHands(f.hands, f.playedCards))
  }

  /** Dealing one hand per seat keeps the invariant. */
  lemma DealKeepsConsistent(f: Snapshot, opener: nat, hands: seq<seq<Card>>)
    requires Consistent(f, opener) && f.state == Waiting && |f.players| >= 1
    requires |hands| == |f.players|
    ensures Consistent(f.(state := Dealing, hands := hands), opener)
  {
  }

  /** Choosing the commander as the first holder of the commander card, or
      keeping the old one, keeps the invariant. */
  lemma CommanderKeepsConsistent(f: Snapshot, opener: nat, c: nat)
    requires Consistent(f, opener) && f.state == Dealing && |f.players| >= 1
    requires FirstHolder(f.hands, c, f.commander)
    ensures Consistent(f.(commander := c), opener)
  {
  }

  /** Handing the lead to the commander after bidding keeps the invariant. */
  lemma LeadKeepsConsistent(f: Snapshot, opener: nat)
    requires Consistent(f, opener) && f.state == Bidding
    ensures Consistent(f.(nextPlayer := f.commander), opener)
  {
  }

  /** Accepting a card from the next player's hand keeps the invariant, the
      opener moving on when the card closes the trick. */
  lemma AcceptKeepsConsistent(f: Snapshot, opener: nat, card: Card)
    requires Consistent(f, opener) && f.state == Turn && |f.players| >= 1
    requires HandStarted(TableOf(f), HandNum(TableOf(f))).Some?
    requires card in f.hands[f.nextPlayer]
    ensures NoCrash(TableOf(f))
    ensures var a := Tricks.AcceptPlay(TableOf(f), card);
            Consistent(f.(playedCards := a.played, handWinners := a.winners, nextPlayer := a.next),
                       NextOpener(TableOf(f), opener, card))
  {
    var t := TableOf(f);
    var a := Tricks.AcceptPlay(t, card);
    AcceptPlayKeepsShape(t, opener, card);
    ShapeNoCrash(a, NextOpener(t, opener, card));
    FromHandsAfterPlay(f.hands, f.playedCards, f.nextPlayer, card);
    var g := f.(playedCards := a.played, handWinners := a.winners, nextPlayer := a.next);
    assert TableOf(g) == a;
  }

  // ---- the game -------------------------------------------------------

  class Game {
    var gameId: int
    var players: seq<PlayerId>
    var commander: nat
    var hands: seq<seq<Card>>
    var mission: Mission
    var history: seq<(int, bool)>
    var state: Phase
    var nextPlayer: nat
    var playedCards: seq<seq<Card>>
    var handWinners: seq<nat>
    /** The seat that opened the current trick. */
    ghost var opener: nat

    function Fields(): Snapshot
      reads this
    {
      Snapshot(gameId, players, commander, hands, mission, history, state, nextPlayer, playedCards, handWinners)
    }

    /** The part of the state that play changes. */
    function Tab(): Table
      reads this
    {
      TableOf(Fields())
    }

    /** The seat `_get_lead` computes for the current trick is the seat that
        opened it, so the led suit is that of the first card played into
        the trick (`Tricks.OpenerPlaysFirst`). */
    ghost predicate LedByOpener()
      reads this
    {
      nextPlayer < |playedCards| && LeadIsOpener(Tab(), opener)
    }

    ghost predicate Valid()
      reads this
    {
      Consistent(Fields(), opener)
    }

    /** `__init__`, with the random 40-bit id as a parameter. */
    constructor (id: int)
      requires 0 <= id < IdLimit
      ensures Valid()
      ensures Fields() == Snapshot(id, [], 0, [], Impossible, [], Waiting, 0, [], [])
    {
      gameId, players, commander, hands := id, [], 0, [];
      mission, history, state := Impossible, [], Waiting;
      nextPlayer, playedCards, handWinners := 0, [], [];
    }

    /** `get_game_id`: eight base-32 characters that decode back to the id. */
    function GetGameId(): (s: string)
      reads this
      requires Valid()
      ensures |s| == 8 && forall k :: 0 <= k < 8 ==> s[k] in Alphabet
      ensures DecodeGameId(s) == Ok(gameId)
    {
      EncodeDecodeRoundTrip(gameId);
      EncodeGameId(gameId).value
    }

    /** `join`: a seat is added while the game is waiting. */
    method Join(player: PlayerId) returns (err: Option<GameError>)
      requires Valid()
      modifies this
      ensures Valid()
      ensures old(state) != Waiting ==> err == Some(InvalidState) && unchanged(this)
      ensures old(state) == Waiting ==>
        err == None &&
        Fields() == old(Fields()).(players := old(players) + [player], playedCards := old(playedCards) + [[]])
    {
      if state != Waiting {
        return Some(InvalidState);
      }
      players := players + [player];
      playedCards := playedCards + [[]];
      err := None;
    }

    /** `set_mission`: only while waiting; a mission number creates a
        mission for the current seats and commander. */
    method SetMission(choice: MissionChoice) returns (err: Option<GameError>)
      requires Valid()
      modifies this
      ensures Valid()
      ensures old(state) != Waiting ==> err == Some(InvalidState) && unchanged(this)
      ensures old(state) == Waiting ==>
        err == None &&
        Fields() == old(Fields()).(mission := match choice
                                     case ByNumber(k) => Numbered(k, old(players), old(commander))
                                     case ByObject(m) => m)
    {
      if state != Waiting {
        return Some(InvalidState);
      }
      match choice {
        case ByNumber(k) => mission := Numbered(k, players, commander);
        case ByObject(m) => mission := m;
      }
      err := None;
    }

    /** `deal`: the deck is cut into one sorted hand per seat and the
        first seat holding the commander card becomes commander. With no
        seats the state still moves to "deal" before the division fails. */
    method Deal(deck: seq<Card>) returns (err: Option<GameError>)
      requires Valid()
      modifies this
      ensures Valid()
      ensures old(state) != Waiting ==> err == Some(InvalidState) && unchanged(this)
      ensures old(state) == Waiting && |players| == 0 ==>
        err == Some(ZeroDivision) && Fields() == old(Fields()).(state := Dealing)
      ensures old(state) == Waiting && |players| >= 1 ==>
        && err == None
        && Fields() == old(Fields()).(state := Dealing, hands := DealHands(deck, |players|), commander := commander)
        && FirstHolder(hands, commander, old(commander))
    {
      if state != Waiting {
        return Some(InvalidState);
      }
      if |players| == 0 {
        state := Dealing;
        return Some(ZeroDivision);
      }
      DealHandsOut(deck);
      ChooseCommander();
      err := None;
    }

    /** The part of `deal` after the state becomes "deal", with seats to
        deal to: one hand per seat. */
    method DealHandsOut(deck: seq<Card>)
      requires Valid() && state == Waiting && |players| >= 1
      modifies this
      ensures Valid()
      ensures Fields() == old(Fields()).(state := Dealing, hands := DealHands(deck, |old(players)|))
    {
      ghost var f := Fields();
      var dealt := DealHands(deck, |players|);
      DealKeepsConsistent(f, opener, dealt);
      state, hands := Dealing, dealt;
      assert Fields() == f.(state := Dealing, hands := dealt);
    }

    /** The end of `deal`: the first seat holding the commander card becomes
        commander. */
    method ChooseCommander()
      requires Valid() && state == Dealing && |players| >= 1
      modifies this
      ensures Valid()
      ensures Fields() == old(Fields()).(commander := commander)
      ensures FirstHolder(hands, commander, old(commander))
    {
      ghost var f := Fields();
      var c := FindCommander(hands, commander);
      CommanderKeepsConsistent(f, opener, c);
      commander := c;
      assert Fields() == f.(commander := c);
    }

    /** `assign_tasks`: from "deal" to "bid" (the mission's bidding hook is
        not part of this model). */
    method AssignTasks() returns (err: Option<GameError>)
      requires Valid()
      modifies this
      ensures Valid()
      ensures old(state) != Dealing ==> err == Some(InvalidState) && unchanged(this)
      ensures old(state) == Dealing ==> err == None && Fields() == old(Fields()).(state := Bidding)
    {
      if state != Dealing {
        return Some(InvalidState);
      }
      state := Bidding;
      err := None;
    }

    /** `communicate`: from "bid" or "turn" to "communicate". Reading the
        first seat's plays fails when there are no seats. The mission's
        communication hook is not part of this model. */
    method Communicate() returns (err: Option<GameError>)
      requires Valid()
      modifies this
      ensures Valid()
      ensures old(state) != Bidding && old(state) != Turn ==> err == Some(InvalidState) && unchanged(this)
      ensures old(state) == Bidding || old(state) == Turn ==>
        && Fields() == old(Fields()).(state := Communicating)
        && err == (if |players| == 0 then Some(IndexError) else None)
        && opener == (if old(state) == Bidding then old(nextPlayer) else old(opener))
    {
      if state != Bidding && state != Turn {
        return Some(InvalidState);
      }
      if state == Bidding {
        opener := nextPlayer;
        if |players| >= 1 {
          FreshShape(Tab());
          ShapeNoCrash(Tab(), opener);
        }
      }
      state := Communicating;
      if |players| == 0 {
        return Some(IndexError);
      }
      err := None;
    }

    /** `start_turn`: from "communicate" or "turn" to "turn". Reading the
        next seat's hand fails when there are no seats. */
    method StartTurn() returns (err: Option<GameError>)
      requires Valid()
      modifies this
      ensures Valid()
      ensures old(state) != Communicating && old(state) != Turn ==> err == Some(InvalidState) && unchanged(this)
      ensures old(state) == Communicating || old(state) == Turn ==>
        && Fields() == old(Fields()).(state := Turn)
        && opener == old(opener)
        && err == (if |players| == 0 then Some(IndexError) else None)
    {
      if state != Communicating && state != Turn {
        return Some(InvalidState);
      }
      state := Turn;
      if |players| == 0 {
        return Some(IndexError);
      }
      err := None;
    }

    /** `begin`: from "waiting", fix the order of play (the shuffled seats
        are used when no round has been played yet), deal, assign tasks, let
        the commander lead and open the first turn. */
    method Begin(shuffled: seq<PlayerId>, deck: seq<Card>) returns (err: Option<GameError>)
      requires Valid()
      requires multiset(shuffled) == multiset(players)
      modifies this
      ensures Valid()
      ensures old(state) != Waiting ==> err == Some(InvalidState) && unchanged(this)
      ensures old(state) == Waiting && |old(players)| == 0 ==>
        err == Some(ZeroDivision) && Fields() == old(Fields()).(state := Dealing)
      ensures old(state) == Waiting && |old(players)| >= 1 ==>
        && err == None
        && players == (if |old(history)| == 0 then shuffled else old(players))
        && Fields() == old(Fields()).(players := players, state := Turn, hands := DealHands(deck, |players|),
                                      commander := commander, nextPlayer := commander)
        && FirstHolder(hands, commander, 0)
        && LedByOpener()
    {
      if state != Waiting {
        return Some(InvalidState);
      }
      assert |shuffled| == |multiset(shuffled)| == |multiset(players)| == |players|;
      if |history| == 0 {
        players := shuffled;
      }
      ghost var seated := Fields();
      err := Deal(deck);
      if err.Some? {
        return;
      }
      ghost var dealt := Fields();
      assert FirstHolder(hands, commander, 0);
      err := AssignTasks();
      Lead();
      assert Fields() == dealt.(state := Turn, nextPlayer := commander);
      err := None;
    }

    /** The end of `begin`: the commander leads, the seats communicate
        and the first turn opens. */
    method Lead()
      requires Valid() && state == Bidding && |players| >= 1
      modifies this
      ensures Valid()
      ensures Fields() == old(Fields()).(state := Turn, nextPlayer := commander)
      ensures LedByOpener()
    {
      ghost var bid := Fields();
      LeadKeepsConsistent(bid, opener);
      nextPlayer := commander;
      assert Fields() == bid.(nextPlayer := commander);
      var err := Communicate();
      err := StartTurn();
    }

    /** `_accept_play`: the card joins the next seat's plays; a closed trick
        records its winner, who plays next, otherwise the turn passes on. */
    method AcceptPlay(card: Card)
      requires Valid() && state == Turn && |players| >= 1
      requires HandStarted(Tab(), HandNum(Tab())).Some?
      requires card in hands[nextPlayer]
      modifies this
      ensures Valid()
      ensures Tab() == Tricks.AcceptPlay(old(Tab()), card)
      ensures Fields() == old(Fields()).(playedCards := playedCards, handWinners := handWinners, nextPlayer := nextPlayer)
      ensures old(LedByOpener()) ==> LedByOpener()
    {
      ghost var f := Fields();
      ghost var nextOpener := NextOpener(Tab(), opener, card);
      AcceptKeepsConsistent(f, opener, card);
      if LedByOpener() {
        AcceptPlayKeepsLead(Tab(), opener, card);
      }
      var after := Tricks.AcceptPlay(Tab(), card);
      playedCards, handWinners, nextPlayer := after.played, after.winners, after.next;
      opener := nextOpener;
      assert Fields() == f.(playedCards := after.played, handWinners := after.winners, nextPlayer := after.next);
    }

    /** `play`: a seat plays a card in its turn. The mission's verdict
        `getStatus` is consulted once a trick closes. */
    method Play(player: PlayerId, card: Card, getStatus: (Mission, seq<seq<Card>>, seq<nat>) -> Status)
      returns (r: Result<RoundOutcome, GameError>)
      requires Valid()
      modifies this
      ensures Valid()
      ensures r.Err? ==> unchanged(this)
      ensures old(state) != Turn ==> r == Err(InvalidState)
      ensures old(state) == Turn && |old(players)| == 0 ==> r == Err(IndexError)
      ensures old(state) == Turn && |old(players)| >= 1 && player != old(players[nextPlayer]) ==> r == Err(OutOfTurn)
      ensures old(state) == Turn && |old(players)| >= 1 && player == old(players[nextPlayer]) ==>
        match ValidPlays(old(Tab()), old(hands[nextPlayer]))
        case None => r == Err(IndexError)
        case Some(valid) =>
          && (card !in valid ==> r == Err(NotValidPlay))
          && (card in valid ==>
                && Tab() == Tricks.AcceptPlay(old(Tab()), card)
                && Fields() == old(Fields()).(playedCards := playedCards, handWinners := handWinners, nextPlayer := nextPlayer)
                && r == Ok(Settle(Tab(), HandNum(old(Tab())), getStatus(mission, playedCards, handWinners))))
      ensures old(LedByOpener()) ==> LedByOpener()
    {
      if state != Turn {
        return Err(InvalidState);
      }
      if |players| == 0 {
        return Err(IndexError);
      }
      if player != players[nextPlayer] {
        return Err(OutOfTurn);
      }
      ghost var before := Tab();
      ghost var fields := Fields();
      var handnum := HandNum(Tab());
      var started := HandStarted(Tab(), handnum);
      if started.None? {
        return Err(IndexError);
      }
      var leadSuit := if started.value then LeadSuit(Tab(), handnum) else None;
      var valid := GetValid(hands[nextPlayer], leadSuit);
      assert ValidPlays(before, hands[nextPlayer]) == Some(valid);
      if card !in valid {
        return Err(NotValidPlay);
      }
      assert multiset(valid)[card] > 0;
      AcceptPlay(card);
      var outcome := SettlePlay(handnum, getStatus);
      r := Ok(outcome);
    }

    /** The end of `play`, once the card is accepted: when the trick is
        complete the mission's status decides, an ongoing mission with
        fewer unplayed cards than seats is lost, and otherwise the next
        turn opens, leaving the fields as they are. */
    method SettlePlay(handnum: nat, getStatus: (Mission, seq<seq<Card>>, seq<nat>) -> Status)
      returns (r: RoundOutcome)
      requires Valid() && state == Turn && |players| >= 1
      modifies this
      ensures Valid()
      ensures Fields() == old(Fields()) && opener == old(opener)
      ensures r == Settle(Tab(), handnum, getStatus(mission, playedCards, handWinners))
    {
      r := Continues;
      if HandFinished(Tab(), handnum) {
        match getStatus(mission, playedCards, handWinners) {
          case Win => return Won;
          case Lose => return Lost;
          case Ongoing =>
        }
        if DeckSize - |playedCards[0]| * |players| < |players| {
          return Lost;
        }
      }
      var turnErr := StartTurn();
    }
  }

  /** `get_description`: "Game <id> with " followed by the seat names:
      "no players", a single name, or all but the last joined by ", " and
      then " and " and the last. */
  function Description(idText: string, names: seq<string>): (d: string)
    ensures |d| >= |"Game " + idText + " with "|
    ensures d[..|"Game " + idText + " with "|] == "Game " + idText + " with "
  {
    var head := "Game " + idText + " with ";
    if |names| == 0 then head + "no players"
    else if |names| == 1 then head + names[0]
    else head + Join(", ", names[..|names| - 1]) + " and " + names[|names| - 1]
  }

  /** Every seat name is readable in the description: with two or more
      names, name `i` sits at its place in the comma-joined list and the
      last name ends the text, preceded by " and ". */
  lemma DescriptionNamesEverySeat(idText: string, names: seq<string>, i: nat)
    requires |names| >= 2 && i < |names|
    ensures var d := Description(idText, names);
            var start := |"Game " + idText + " with "|;
            if i < |names| - 1 then
              ShowsAt(d, start + PartOffset(", ", names[..|names| - 1], i), names[i])
            else
              |d| >= |names[i]| + 5 && ShowsAt(d, |d| - |names[i]| - 5, " and " + names[i])
  {
    var head := "Game " + idText + " with ";
    var init := names[..|names| - 1];
    var tail := " and " + names[|names| - 1];
    DescriptionOfMany(idText, names);
    if i < |names| - 1 {
      JoinHoldsPart(", ", init, i);
      assert init[i] == names[i];
      ShowsInside(head, Join(", ", init), tail, PartOffset(", ", init, i), names[i]);
    } else {
      DescriptionEndsWith(head + Join(", ", init), tail);
    }
  }

  /** With two or more names the description is the head, the joined
      leading names and " and " with the last name. */
  lemma DescriptionOfMany(idText: string, names: seq<string>)
    requires |names| >= 2
    ensures Description(idText, names) ==
            "Game " + idText + " with " + Join(", ", names[..|names| - 1]) + (" and " + names[|names| - 1])
  {
  }

  /** A text ends with what was appended last. */
  lemma DescriptionEndsWith(front: string, tail: string)
    ensures ShowsAt(front + tail, |front + tail| - |tail|, tail)
  {
    assert (front + tail)[|front|..] == tail;
  }

  /** With fewer than two names the description ends in "no players" or
      the one name. */
  lemma DescriptionFewSeats(idText: string, names: seq<string>)
    requires |names| <= 1
    ensures var d := Description(idText, names);
            var start := |"Game " + idText + " with "|;
            d[start..] == if |names| == 0 then "no players" else names[0]
  {
  }
}
