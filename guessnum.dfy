/** The number-guessing bot's conversation states: the base state, the
    invitation to start, the bisection between `lower` and `upper`, and the
    final guess. Only the state changes are modelled; the chat replies are
    not. */
module GuessNum {
  /** The largest number the player is invited to think of. */
  const Top: int := 1000

  /** The value of a conversation state. */
  datatype Bot = Idle | Start | Bounded(lower: int, upper: int, guess: int) | Final(guess: int)

  /** `(lower + upper) // 2`; Dafny's `/` rounds down like Python's `//`
      for the positive divisor 2. */
  function Midpoint(lower: int, upper: int): int
  {
    (lower + upper) / 2
  }

  /** The state `NewGame` moves to: `BoundedGuess(0, 1000)`. */
  function Opening(): Bot
  {
    Bounded(0, Top, Midpoint(0, Top))
  }

  /** The in-place update of `BoundedGuess.new_message`: "Yes" (the
      number is greater than the guess) moves `lower` to the guess, "No"
      moves `upper` to it, and any other message changes nothing. */
  function Moved(lower: int, upper: int, guess: int, msg: string): (m: Bot)
    ensures m.Bounded?
    ensures lower <= guess <= upper ==> lower <= m.lower <= m.upper <= upper
    ensures msg == "Yes" || msg == "No" ==> m.guess == Midpoint(m.lower, m.upper)
    ensures msg != "Yes" && msg != "No" ==> m == Bounded(lower, upper, guess)
  {
    if msg == "Yes" then Bounded(guess, upper, Midpoint(guess, upper))
    else if msg == "No" then Bounded(lower, guess, Midpoint(lower, guess))
    else Bounded(lower, upper, guess)
  }

  /** Equal bounds give the final guess; otherwise the bisection goes on. */
  function Settled(m: Bot): Bot
    requires m.Bounded?
  {
    if m.lower == m.upper then Final(m.lower) else m
  }

  /** `new_message` of each state, as a change of state. */
  function Step(b: Bot, msg: string): (r: Bot)
    ensures r == Idle <==> b == Idle
    ensures r != Start
  {
    match b
    case Idle => Idle
    case Start => Opening()
    case Bounded(l, u, g) =>
      if msg == "You guessed it" then Opening() else Settled(Moved(l, u, g, msg))
    case Final(_) => Opening()
  }

  // ---- the objects ----------------------------------------------------

  /** A state object as the bot stores it: the base `State`, `NewGame`, a
      `BoundedGuess` object, or `FinalGuess(guess)`. */
  datatype Session = Base | NewGame | Guessing(bisection: BoundedGuess) | FinalGuess(guess: int)

  /** The value of a state object. */
  function View(s: Session): Bot
    reads if s.Guessing? then {s.bisection} else {}
  {
    match s
    case Base => Idle
    case NewGame => Start
    case Guessing(g) => g.Value()
    case FinalGuess(x) => Final(x)
  }

  class BoundedGuess {
    var lower: int
    var upper: int
    var guess: int

    function Value(): Bot
      reads this
    {
      Bounded(lower, upper, guess)
    }

    constructor (lower: int, upper: int)
      ensures Value() == Bounded(lower, upper, Midpoint(lower, upper))
    {
      this.lower := lower;
      this.upper := upper;
      guess := (lower + upper) / 2;
    }

    /** `new_message`: "You guessed it" starts over through `NewGame`; any
        other message updates the bounds in place, and the object carries on
        unless the bounds met. */
    method NewMessage(msg: string) returns (next: Session)
      modifies this
      ensures msg == "You guessed it" ==>
        unchanged(this) && next.Guessing? && fresh(next.bisection) && next.bisection.Value() == Opening()
      ensures msg != "You guessed it" ==>
        && Value() == Moved(old(lower), old(upper), old(guess), msg)
        && next == if lower == upper then FinalGuess(lower) else Guessing(this)
    {
      if msg == "Yes" {
        lower := guess;
        guess := (lower + upper) / 2;
      } else if msg == "No" {
        upper := guess;
        guess := (lower + upper) / 2;
      } else if msg == "You guessed it" {
        next := NewGameMessage();
        return;
      }
      if lower == upper {
        next := FinalGuess(lower);
      } else {
        next := Guessing(this);
      }
    }
  }

  /** `NewGame.new_message`: a fresh bisection over 0 .. 1000. */
  method NewGameMessage() returns (next: Session)
    ensures next.Guessing? && fresh(next.bisection) && next.bisection.Value() == Opening()
  {
    var g := new BoundedGuess(0, Top);
    next := Guessing(g);
  }

  /** Dispatch of `new_message` on whichever state object the bot holds;
      the new state's value is `Step` of the old one. */
  method Transition(s: Session, msg: string) returns (t: Session)
    modifies if s.Guessing? then {s.bisection} else {}
    ensures View(t) == Step(old(View(s)), msg)
    ensures t.Guessing? ==> (s.Guessing? && t.bisection == s.bisection) || fresh(t.bisection)
  {
    match s
    case Base => t := s;
    case NewGame => t := NewGameMessage();
    case Guessing(g) => t := g.NewMessage(msg);
    case FinalGuess(_) => t := NewGameMessage();
  }

  // ---- properties of the bisection ------------------------------------

  /** The bounds every reachable state keeps: a running bisection has
      `0 <= lower <= guess < upper <= 1000` with the guess at the midpoint,
      and a final guess lies in 0 .. 1000. */
  ghost predicate InRange(b: Bot)
  {
    match b
    case Bounded(l, u, g) => 0 <= l <= g < u <= Top && g == Midpoint(l, u)
    case Final(x) => 0 <= x <= Top
    case _ => true
  }

  lemma OpeningInRange()
    ensures InRange(Opening())
  {
  }

  /** Every message keeps the bounds. */
  lemma StepKeepsRange(b: Bot, msg: string)
    requires InRange(b)
    ensures InRange(Step(b, msg))
  {
  }

  /** The truthful answer to "Is it greater than `guess`?". */
  function Answer(secret: int, guess: int): string
  {
    if secret > guess then "Yes" else "No"
  }

  /** Truthful answers never lose the number: it stays between the bounds,
      and a final guess is the number itself. */
  lemma TruthfulKeepsSecret(b: Bot, secret: int)
    requires InRange(b) && b.Bounded? && b.lower <= secret <= b.upper
    ensures var r := Step(b, Answer(secret, b.guess));
            (r.Bounded? && r.lower <= secret <= r.upper) || r == Final(secret)
  {
  }

  /** "No" always narrows the bisection; "Yes" narrows it only while the
      bounds are at least two apart. */
  lemma AnswerNarrows(b: Bot)
    requires InRange(b) && b.Bounded?
    ensures var r := Step(b, "No"); r.Final? || r.upper - r.lower < b.upper - b.lower
    ensures var r := Step(b, "Yes");
            (r.Final? || r.upper - r.lower < b.upper - b.lower) <==> b.upper - b.lower >= 2
  {
  }

  /** `n` truthful answers, starting from `b`, for the number `secret`. */
  function Run(b: Bot, secret: int, n: nat): Bot
    decreases n
  {
    if n == 0 || !b.Bounded? then b else Run(Step(b, Answer(secret, b.guess)), secret, n - 1)
  }

  /** When the number is 1000, each truthful answer is "Yes" and the upper
      bound stays at 1000 while the lower bound stays below it, so no
      number of answers leads to a final guess. */
  lemma {:induction false} TopSecretNeverFinal(b: Bot, n: nat)
    requires InRange(b) && b.Bounded? && b.upper == Top
    ensures Run(b, Top, n).Bounded?
    decreases n
  {
    if n > 0 {
      var r := Step(b, Answer(Top, b.guess));
      assert r.Bounded? && r.upper == Top;
      TopSecretNeverFinal(r, n - 1);
    }
  }

  /** From the start of a game, the number 1000 is never guessed. */
  lemma OpeningNeverFindsTop(n: nat)
    ensures Run(Opening(), Top, n).Bounded?
  {
    TopSecretNeverFinal(Opening(), n);
  }

  /** In particular the bisection between 999 and 1000 answers "Yes" by
      asking the same question again. */
  lemma StallBelowTop()
    ensures Step(Bounded(999, Top, 999), "Yes") == Bounded(999, Top, 999)
  {
  }

  // ---- the bisection with the evident intent --------------------------

  /** The update with "Yes" meaning the number is at least `guess + 1`. */
  function CorrectedStep(b: Bot, msg: string): (r: Bot)
    ensures r == Idle <==> b == Idle
  {
    match b
    case Bounded(l, u, g) =>
      if msg == "Yes" then Settled(Bounded(g + 1, u, Midpoint(g + 1, u)))
      else if msg == "You guessed it" then Opening()
      else Settled(Moved(l, u, g, msg))
    case _ => Step(b, msg)
  }

  function CorrectedRun(b: Bot, secret: int, n: nat): Bot
    decreases n
  {
    if n == 0 || !b.Bounded? then b else CorrectedRun(CorrectedStep(b, Answer(secret, b.guess)), secret, n - 1)
  }

  /** With the corrected update, truthful answers reach the number as the
      final guess within `upper - lower` answers. */
  lemma {:induction false} CorrectedRunFinds(b: Bot, secret: int, n: nat)
    requires InRange(b) && b.Bounded? && b.lower <= secret <= b.upper
    requires n >= b.upper - b.lower
    ensures CorrectedRun(b, secret, n) == Final(secret)
    decreases n
  {
    var r := CorrectedStep(b, Answer(secret, b.guess));
    assert (r.Bounded? && InRange(r) && r.lower <= secret <= r.upper && r.upper - r.lower < b.upper - b.lower)
           || r == Final(secret);
    if r.Bounded? {
      CorrectedRunFinds(r, secret, n - 1);
    }
  }

  /** From the start of a game, every number in 0 .. 1000 is found within
      1000 truthful answers. */
  lemma CorrectedFindsEveryNumber(secret: int)
    requires 0 <= secret <= Top
    ensures CorrectedRun(Opening(), secret, Top) == Final(secret)
  {
    CorrectedRunFinds(Opening(), secret, Top);
  }
}
