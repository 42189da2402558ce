/** Cards of the Crew9 deck: the suites and their order, the suite-aware
    "takes" relation that decides tricks, the winner of a trick, the
    ordering used to sort a hand and the text of a card. */
module Cards {
  import opened Text

  /** The five suites. Each is identified by its icon; `Rocket` is the
      trump suite. */
  datatype Suite = Blue | Pink | Green | Yellow | Rocket

  /** The icon of each suite, as Unicode scalar values. */
  function Icon(s: Suite): string
  {
    match s
    case Blue => "\U{1F300}"
    case Pink => "\U{1F338}"
    case Green => "\U{2618}\U{FE0F}"
    case Yellow => "\U{2B50}\U{FE0F}"
    case Rocket => "\U{1F680}"
  }

  /** Python's `<` on strings: lexicographic by code point, a proper prefix
      being smaller. */
  predicate StrLess(a: string, b: string)
  {
    if |a| == 0 then |b| > 0
    else if |b| == 0 then false
    else if a[0] == b[0] then StrLess(a[1..], b[1..])
    else a[0] < b[0]
  }

  /** Position of a suite in the display order. */
  function Rank(s: Suite): nat
  {
    match s
    case Green => 0
    case Yellow => 1
    case Blue => 2
    case Pink => 3
    case Rocket => 4
  }

  /** `Suite.__lt__`: suites compare by their icons, which puts them in the
      order Green, Yellow, Blue, Pink, Rocket. */
  function SuiteLess(a: Suite, b: Suite): (r: bool)
    ensures r <==> Rank(a) < Rank(b)
  {
    StrLessIrreflexive(Icon(a));
    assert a != b ==> Icon(a)[0] != Icon(b)[0];
    StrLess(Icon(a), Icon(b))
  }

  lemma {:induction false} StrLessIrreflexive(s: string)
    ensures !StrLess(s, s)
  {
    if |s| > 0 {
      StrLessIrreflexive(s[1..]);
    }
  }

  /** A card: a value and a suite. The deck has the values 1 to 9 of the
      four plain suites and 1 to 4 of Rocket, but any value is a card. */
  datatype Card = Card(value: int, suite: Suite)

  /** `Card.takes`: would `a` win a trick against `b` when `lead` is the
      suite that was led? */
  predicate Takes(a: Card, b: Card, lead: Suite)
  {
    if a.suite == b.suite then a.value > b.value
    else if a.suite == Rocket then true
    else if b.suite == Rocket then false
    else a.suite == lead
  }

  /** Within one suite the higher value takes, whatever was led. */
  lemma TakesWithinSuite(a: Card, b: Card, lead: Suite)
    requires a.suite == b.suite
    ensures Takes(a, b, lead) <==> a.value > b.value
  {
  }

  /** A Rocket takes every card of another suite, and no such card takes a
      Rocket. */
  lemma RocketDominates(r: Card, b: Card, lead: Suite)
    requires r.suite == Rocket && b.suite != Rocket
    ensures Takes(r, b, lead) && !Takes(b, r, lead)
  {
  }

  /** Between two different plain suites only a card of the led suite takes. */
  lemma OffSuite(a: Card, b: Card, lead: Suite)
    requires a.suite != b.suite && a.suite != Rocket && b.suite != Rocket
    ensures Takes(a, b, lead) <==> a.suite == lead
  {
  }

  /** `takes` is irreflexive and asymmetric: it never holds both ways. */
  lemma TakesAsymmetric(a: Card, b: Card, lead: Suite)
    ensures !Takes(a, a, lead)
    ensures !(Takes(a, b, lead) && Takes(b, a, lead))
  {
  }

  /** Two cards of different plain suites, neither of them led, do not take
      each other: `takes` is not a total order. */
  lemma TakesNotTotal()
    ensures !Takes(Card(2, Green), Card(6, Yellow), Blue)
    ensures !Takes(Card(6, Yellow), Card(2, Green), Blue)
  {
  }

  /** `Card.__lt__`: compare the tuples (suite, value). */
  function CardLess(a: Card, b: Card): (r: bool)
    ensures r <==> Rank(a.suite) < Rank(b.suite) || (a.suite == b.suite && a.value < b.value)
  {
    if a.suite != b.suite then SuiteLess(a.suite, b.suite) else a.value < b.value
  }

  /** `CardLess` is a strict total order on cards. */
  lemma CardLessIsStrictTotalOrder(a: Card, b: Card, c: Card)
    ensures !CardLess(a, a)
    ensures CardLess(a, b) && CardLess(b, c) ==> CardLess(a, c)
    ensures a != b ==> CardLess(a, b) || CardLess(b, a)
  {
    if a != b && a.suite == b.suite {
      assert a.value != b.value;
    }
  }

  /** `str(card)`: the value followed by the suite's icon. */
  function CardText(c: Card): string
  {
    IntToDecimal(c.value) + Icon(c.suite)
  }

  /** Can `c` occur in the decimal rendering of an integer? */
  predicate IsNumeric(c: char)
  {
    c == '-' || '0' <= c <= '9'
  }

  /** Length of the longest prefix of `s` made of numeric characters. */
  function NumericPrefixLength(s: string): nat
  {
    if |s| > 0 && IsNumeric(s[0]) then 1 + NumericPrefixLength(s[1..]) else 0
  }

  lemma {:induction false} NumericPrefixOf(d: string, rest: string)
    requires forall k :: 0 <= k < |d| ==> IsNumeric(d[k])
    requires |rest| > 0 && !IsNumeric(rest[0])
    ensures NumericPrefixLength(d + rest) == |d|
  {
    if |d| > 0 {
      assert (d + rest)[1..] == d[1..] + rest;
      NumericPrefixOf(d[1..], rest);
    }
  }

  /** The text of a card determines the card. */
  lemma CardTextInjective(a: Card, b: Card)
    requires CardText(a) == CardText(b)
    ensures a == b
  {
    var da, db := IntToDecimal(a.value), IntToDecimal(b.value);
    var ia, ib := Icon(a.suite), Icon(b.suite);
    NumericPrefixOf(da, ia);
    NumericPrefixOf(db, ib);
    assert |da| == |db|;
    assert (da + ia)[..|da|] == da && (db + ib)[..|db|] == db;
    assert (da + ia)[|da|..] == ia && (db + ib)[|db|..] == ib;
    IntToDecimalInjective(a.value, b.value);
  }

  // ---- sorting a hand -------------------------------------------------

  /** Non-decreasing in the card order. */
  ghost predicate SortedCards(s: seq<Card>)
  {
    forall i, j :: 0 <= i < j < |s| ==> !CardLess(s[j], s[i])
  }

  /** A card not above any card of a sorted sequence can head it. */
  lemma SortedCons(x: Card, rest: seq<Card>)
    requires SortedCards(rest)
    requires forall k :: 0 <= k < |rest| ==> !CardLess(rest[k], x)
    ensures SortedCards([x] + rest)
  {
    var r := [x] + rest;
    forall i, j | 0 <= i < j < |r| ensures !CardLess(r[j], r[i]) {
      assert r[j] == rest[j - 1];
      if i > 0 {
        assert r[i] == rest[i - 1];
      }
    }
  }

  lemma SortedTail(s: seq<Card>)
    requires SortedCards(s) && |s| > 0
    ensures SortedCards(s[1..])
  {
    forall i, j | 0 <= i < j < |s[1..]| ensures !CardLess(s[1..][j], s[1..][i]) {
      assert s[1..][j] == s[j + 1] && s[1..][i] == s[i + 1];
    }
  }

  /** Inserting a card above the head keeps everything after the head not
      below it. */
  lemma InsertKeepsFloor(c: Card, s: seq<Card>, rest: seq<Card>)
    requires SortedCards(s) && |s| > 0 && CardLess(s[0], c)
    requires multiset(rest) == multiset(s[1..]) + multiset{c}
    ensures forall k :: 0 <= k < |rest| ==> !CardLess(rest[k], s[0])
  {
    forall k | 0 <= k < |rest| ensures !CardLess(rest[k], s[0]) {
      var y := rest[k];
      assert y in multiset(rest);
      if y == c {
        CardLessIsStrictTotalOrder(s[0], c, s[0]);
      } else {
        assert y in multiset(s[1..]);
        var i :| 0 <= i < |s[1..]| && s[1..][i] == y;
        assert s[i + 1] == y;
      }
    }
  }

  /** Places `c` into a sorted sequence. */
  function Insert(c: Card, s: seq<Card>): (r: seq<Card>)
    requires SortedCards(s)
    ensures SortedCards(r)
    ensures multiset(r) == multiset(s) + multiset{c}
  {
    if |s| == 0 then [c]
    else if CardLess(s[0], c) then
      SortedTail(s);
      var rest := Insert(c, s[1..]);
      InsertKeepsFloor(c, s, rest);
      SortedCons(s[0], rest);
      assert s == [s[0]] + s[1..];
      [s[0]] + rest
    else
      assert forall k :: 0 <= k < |s| ==> !CardLess(s[k], c) by {
        forall k | 0 <= k < |s| ensures !CardLess(s[k], c) {
          SortedHeadIsLeast(s, k);
          CardLessIsStrictTotalOrder(s[k], s[0], c);
        }
      }
      SortedCons(c, s);
      [c] + s
  }

  /** `sorted(cards)`: the cards in non-decreasing order. */
  function SortCards(s: seq<Card>): (r: seq<Card>)
    ensures SortedCards(r)
    ensures multiset(r) == multiset(s)
    ensures |r| == |s|
  {
    if |s| == 0 then []
    else
      assert s == [s[0]] + s[1..];
      Insert(s[0], SortCards(s[1..]))
  }

  /** The first card of a sorted sequence is not above any of its cards. */
  lemma SortedHeadIsLeast(s: seq<Card>, i: nat)
    requires SortedCards(s) && i < |s|
    ensures !CardLess(s[i], s[0])
  {
    if i == 0 {
      CardLessIsStrictTotalOrder(s[0], s[0], s[0]);
    }
  }

  /** Two sorted sequences with the same cards start with the same card. */
  lemma SortedSameHead(a: seq<Card>, b: seq<Card>)
    requires SortedCards(a) && SortedCards(b) && |a| > 0 && |b| > 0
    requires multiset(a) == multiset(b)
    ensures a[0] == b[0]
  {
    assert b[0] in multiset(a) && a[0] in multiset(b);
    var i :| 0 <= i < |a| && a[i] == b[0];
    var j :| 0 <= j < |b| && b[j] == a[0];
    SortedHeadIsLeast(a, i);
    SortedHeadIsLeast(b, j);
    CardLessIsStrictTotalOrder(a[0], b[0], a[0]);
  }

  /** There is only one sorted arrangement of a multiset of cards, so
      `SortCards` agrees with any other sort by the same order. */
  lemma {:induction false} SortedIsUnique(a: seq<Card>, b: seq<Card>)
    requires SortedCards(a) && SortedCards(b)
    requires multiset(a) == multiset(b)
    ensures a == b
  {
    if |a| > 0 {
      assert |b| == |multiset(b)| == |a|;
      SortedSameHead(a, b);
      var x := a[0];
      assert a == [x] + a[1..] && b == [x] + b[1..];
      assert multiset(a[1..]) == multiset(a) - multiset{x};
      assert multiset(b[1..]) == multiset(b) - multiset{x};
      SortedTail(a);
      SortedTail(b);
      SortedIsUnique(a[1..], b[1..]);
    }
  }

  // ---- the winner of a trick ------------------------------------------

  /** Card groups laid end to end. */
  function Flatten(groups: seq<seq<Card>>): seq<Card>
  {
    if |groups| == 0 then [] else groups[0] + Flatten(groups[1..])
  }

  lemma {:induction false} FlattenAppend(groups: seq<seq<Card>>, g: seq<Card>)
    ensures Flatten(groups + [g]) == Flatten(groups) + g
  {
    if |groups| > 0 {
      assert (groups + [g])[1..] == groups[1..] + [g];
      FlattenAppend(groups[1..], g);
    } else {
      assert [g][1..] == [];
    }
  }

  /** `get_winner(cards, lead)`: scan the cards left to right, keeping the
      best so far and replacing it by a later card that takes it. Returns
      the position of the winning card. */
  function GetWinner(cards: seq<Card>, lead: Suite): (w: nat)
    requires |cards| > 0
    ensures w < |cards|
  {
    if |cards| == 1 then 0
    else
      var best := GetWinner(cards[..|cards| - 1], lead);
      if Takes(cards[|cards| - 1], cards[best], lead) then |cards| - 1 else best
  }

  ghost predicate HasSuite(cards: seq<Card>, s: Suite)
  {
    exists i :: 0 <= i < |cards| && cards[i].suite == s
  }

  /** The suite that decides a trick: Rocket when one was played, else the
      led suite when it was played, else the suite of the first card. */
  ghost function DecidingSuite(cards: seq<Card>, lead: Suite): Suite
    requires |cards| > 0
  {
    if HasSuite(cards, Rocket) then Rocket
    else if HasSuite(cards, lead) then lead
    else cards[0].suite
  }

  /** Reference definition of the winning position: the highest card of the
      deciding suite, the earliest one among equal values. */
  ghost predicate IsTrickWinner(cards: seq<Card>, lead: Suite, w: nat)
    requires |cards| > 0
  {
    var d := DecidingSuite(cards, lead);
    && w < |cards|
    && cards[w].suite == d
    && (forall j :: 0 <= j < |cards| && cards[j].suite == d ==> cards[j].value <= cards[w].value)
    && (forall j :: 0 <= j < w && cards[j].suite == d ==> cards[j].value < cards[w].value)
  }

  /** The scan finds the reference winner. */
  lemma {:induction false} GetWinnerIsTrickWinner(cards: seq<Card>, lead: Suite)
    requires |cards| > 0
    ensures IsTrickWinner(cards, lead, GetWinner(cards, lead))
  {
    var n := |cards|;
    if n > 1 {
      var p := cards[..n - 1];
      var c := cards[n - 1];
      GetWinnerIsTrickWinner(p, lead);
      var b := GetWinner(p, lead);
      assert forall j :: 0 <= j < n - 1 ==> cards[j] == p[j];
      assert forall s :: HasSuite(cards, s) <==> HasSuite(p, s) || c.suite == s by {
        forall s ensures HasSuite(cards, s) <==> HasSuite(p, s) || c.suite == s {
          if HasSuite(cards, s) {
            var i :| 0 <= i < n && cards[i].suite == s;
            if i < n - 1 { assert p[i].suite == s; }
          }
          if HasSuite(p, s) {
            var i :| 0 <= i < n - 1 && p[i].suite == s;
            assert cards[i].suite == s;
          }
          if c.suite == s {
            assert cards[n - 1].suite == s;
          }
        }
      }
    }
  }

  /** The reference winner is unique, so it is exactly what `GetWinner`
      returns. */
  lemma TrickWinnerIsUnique(cards: seq<Card>, lead: Suite, w: nat, v: nat)
    requires |cards| > 0
    requires IsTrickWinner(cards, lead, w) && IsTrickWinner(cards, lead, v)
    ensures w == v
  {
  }

  /** No card of the trick takes the winning card. */
  lemma {:induction false} WinnerIsNotTaken(cards: seq<Card>, lead: Suite, j: nat)
    requires j < |cards|
    ensures !Takes(cards[j], cards[GetWinner(cards, lead)], lead)
  {
    GetWinnerIsTrickWinner(cards, lead);
    var w := GetWinner(cards, lead);
    var d := DecidingSuite(cards, lead);
    if cards[j].suite == Rocket {
      assert HasSuite(cards, Rocket);
    } else if cards[j].suite == lead {
      assert HasSuite(cards, lead);
    }
  }

  /** When a Rocket was played, the highest Rocket wins; otherwise, when the
      led suite was played, its highest card wins. */
  lemma WinnerByRocketOrLead(cards: seq<Card>, lead: Suite)
    requires |cards| > 0
    ensures HasSuite(cards, Rocket) ==>
              var w := GetWinner(cards, lead);
              cards[w].suite == Rocket &&
              forall j :: 0 <= j < |cards| && cards[j].suite == Rocket ==> cards[j].value <= cards[w].value
    ensures !HasSuite(cards, Rocket) && HasSuite(cards, lead) ==>
              var w := GetWinner(cards, lead);
              cards[w].suite == lead &&
              forall j :: 0 <= j < |cards| && cards[j].suite == lead ==> cards[j].value <= cards[w].value
  {
    GetWinnerIsTrickWinner(cards, lead);
  }

  /** The cases of `test_takes` and `test_winner`. */
  lemma TakesAndWinnerExamples()
    ensures Takes(Card(2, Green), Card(6, Yellow), Green)
    ensures !Takes(Card(2, Green), Card(6, Yellow), Yellow)
    ensures !Takes(Card(2, Green), Card(6, Yellow), Blue)
    ensures Takes(Card(6, Yellow), Card(2, Green), Yellow)
    ensures !Takes(Card(6, Yellow), Card(2, Green), Green)
    ensures !Takes(Card(6, Yellow), Card(2, Green), Blue)
    ensures !Takes(Card(6, Yellow), Card(1, Rocket), Yellow)
    ensures Takes(Card(1, Rocket), Card(6, Yellow), Yellow)
    ensures GetWinner([Card(9, Green), Card(4, Rocket)], Green) == 1
    ensures GetWinner([Card(9, Green), Card(4, Blue)], Green) == 0
    ensures GetWinner([Card(9, Green), Card(4, Blue)], Blue) == 1
    ensures GetWinner([Card(1, Green), Card(4, Blue), Card(9, Green)], Green) == 2
    ensures GetWinner([Card(1, Green), Card(4, Blue), Card(9, Green)], Blue) == 1
  {
    assert [Card(1, Green), Card(4, Blue), Card(9, Green)][..2] == [Card(1, Green), Card(4, Blue)];
    assert [Card(1, Green), Card(4, Blue)][..1] == [Card(1, Green)];
    assert [Card(9, Green), Card(4, Blue)][..1] == [Card(9, Green)];
    assert [Card(9, Green), Card(4, Rocket)][..1] == [Card(9, Green)];
  }
}
