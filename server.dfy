/**
 * The game rules of the word-guessing server: choosing the keyword record,
 * admitting players, and judging each guess against the shared round state
 * (keyword, win flag, shared miss counter, points per nickname).
 *
 * Every handler thread of the server works on the same globals; here each
 * registration and each guess is one atomic call on a `GameServer` object.
 */
module Server {
  import opened PyStr

  /** The placeholder shown for a hidden keyword position. */
  const Hidden: char := '*'

  /** The loop guard's bound on the shared miss counter. */
  const TurnLimit: int := 5

  /** Points for a letter that occurs but leaves part of the keyword hidden. */
  const LetterPoints: nat := 1

  /** Points for completing the keyword, by a letter or by the whole word. */
  const WinPoints: nat := 5

  // ---------------------------------------------------------------------------
  // Keyword selection

  /**
   * What reading record `k` of the keyword file yields. The keyword line is
   * read and assigned before the hint line, so a file that stops between the
   * two leaves the new keyword in place and fails on the hint.
   */
  datatype Selection =
    | Selected(keyword: string, hint: string)
    | HintMissing(keyword: string)
    | RecordMissing

  /** A value that may be absent. */
  datatype Option<T> = None | Some(value: T)

  /** A keyword as the server stores it: lower case, no outer whitespace. */
  predicate Normalized(keyword: string) {
    Lower(keyword) == keyword && Trimmed(keyword)
  }

  /**
   * Record `k` (1-based, as drawn from 1..n) of the file's `lines`: the
   * keyword on line 2k-1, stripped and lower-cased, the hint on line 2k,
   * only stripped. Line 0 holds the record count n.
   */
  function Select(lines: seq<string>, k: int): (r: Selection)
    requires k >= 1
    ensures r.RecordMissing? <==> |lines| <= 2 * k - 1
    ensures r.Selected? <==> 2 * k < |lines|
    ensures !r.RecordMissing? ==> Normalized(r.keyword)
  {
    if |lines| <= 2 * k - 1 then RecordMissing
    else
      var keyword := Lower(Strip(lines[2 * k - 1]));
      LowerIdempotent(Strip(lines[2 * k - 1]));
      LowerKeepsTrimmed(Strip(lines[2 * k - 1]));
      if |lines| <= 2 * k then HintMissing(keyword)
      else Selected(keyword, Strip(lines[2 * k]))
  }

  /**
   * For a well-formed file of n records (a count line and 2n record lines),
   * every index the random draw can produce selects the k-th pair.
   */
  lemma SelectRecord(lines: seq<string>, n: int, k: int)
    requires 1 <= k <= n && |lines| >= 2 * n + 1
    ensures Select(lines, k) == Selected(Lower(Strip(lines[2 * k - 1])), Strip(lines[2 * k]))
    ensures forall i :: 0 <= i < |Select(lines, k).keyword| ==> !IsUpper(Select(lines, k).keyword[i])
  {
  }

  // ---------------------------------------------------------------------------
  // Masks

  /** The mask broadcast at the start of a round: one placeholder per keyword character. */
  function StartMask(keyword: string): (m: string)
    ensures |m| == |keyword|
    ensures forall i :: 0 <= i < |m| ==> m[i] == Hidden
  {
    if keyword == [] then [] else [Hidden] + StartMask(keyword[1..])
  }

  /**
   * The mask after a letter guess: only the positions holding the guessed
   * letter are shown; letters guessed earlier are not carried over.
   */
  function Mask(keyword: string, letter: char): (m: string)
    ensures |m| == |keyword|
    ensures forall i {:trigger m[i]} :: 0 <= i < |keyword| ==>
              m[i] == (if keyword[i] == letter then keyword[i] else Hidden)
  {
    if keyword == [] then []
    else [if keyword[0] == letter then keyword[0] else Hidden] + Mask(keyword[1..], letter)
  }

  /**
   * For any letter other than the placeholder, the mask shows the letter
   * exactly where the keyword has it and hides every other position, so the
   * occurrence count is the number of shown positions.
   */
  lemma {:induction false} MaskShowsCount(keyword: string, letter: char)
    requires letter != Hidden
    ensures Count(Mask(keyword, letter), letter) == Count(keyword, letter)
    ensures Count(keyword, letter) + Count(Mask(keyword, letter), Hidden) == |keyword|
  {
    if keyword != [] {
      MaskShowsCount(keyword[1..], letter);
      assert Mask(keyword, letter)[1..] == Mask(keyword[1..], letter);
    }
  }

  /**
   * A letter present in the keyword leaves no placeholder exactly when the
   * keyword is that letter repeated (and the letter is not the placeholder).
   */
  lemma MaskCompleteIff(keyword: string, letter: char)
    requires letter in keyword
    ensures Hidden !in Mask(keyword, letter) <==>
              letter != Hidden && Count(keyword, letter) == |keyword|
  {
    var m := Mask(keyword, letter);
    CountAll(keyword, letter);
    if Hidden !in m {
      var i :| 0 <= i < |keyword| && keyword[i] == letter;
      assert m[i] == letter;
      forall j | 0 <= j < |keyword| ensures keyword[j] == letter {
        assert m[j] != Hidden;
      }
    }
  }

  /** A letter absent from the keyword reveals nothing: its mask is the start mask. */
  lemma AbsentLetterMask(keyword: string, letter: char)
    requires letter !in keyword
    ensures Mask(keyword, letter) == StartMask(keyword)
  {
  }

  // ---------------------------------------------------------------------------
  // Judging one guess

  /** What one guess produces; the messages themselves are not modelled. */
  datatype Outcome =
    | Occurrence(count: nat, mask: string)  // a letter that occurs; the mask may be complete
    | NotInKeyword                          // a letter that does not occur
    | Win                                   // the whole keyword, case-insensitively
    | IncorrectWord                         // any other non-letter guess after the first miss
    | TooEarly                              // a non-letter guess before any miss

  /**
   * The verdict on `guess` against `keyword` while the shared miss counter
   * is `turnCount`. A guess of length 1 is a letter; every other length,
   * the empty string included, is a whole-word guess.
   */
  function Judge(keyword: string, turnCount: int, guess: string): Outcome {
    if |guess| == 1 then JudgeLetterGuess(keyword, LowerChar(guess[0]))
    else JudgeWordGuess(keyword, turnCount, guess)
  }

  /** The verdict on a letter guess, already lower-cased. */
  function JudgeLetterGuess(keyword: string, letter: char): Outcome {
    if letter in keyword then Occurrence(Count(keyword, letter), Mask(keyword, letter))
    else NotInKeyword
  }

  /** The verdict on a guess of any length other than 1. */
  function JudgeWordGuess(keyword: string, turnCount: int, guess: string): Outcome {
    if turnCount >= 1 then
      if Lower(guess) == keyword then Win else IncorrectWord
    else TooEarly
  }

  /** No placeholder is left in the mask: every position is shown. */
  predicate Revealed(mask: string) {
    mask == [] || (mask[0] != Hidden && Revealed(mask[1..]))
  }

  /** `Revealed` is the server's test that the placeholder is not in the mask. */
  lemma {:induction false} RevealedIff(mask: string)
    ensures Revealed(mask) <==> Hidden !in mask
  {
    if mask != [] {
      RevealedIff(mask[1..]);
      assert mask == [mask[0]] + mask[1..];
    }
  }

  /** Whether the outcome sets the win flag. */
  predicate Ends(o: Outcome) {
    (o.Occurrence? && Revealed(o.mask)) || o.Win?
  }

  /** Whether the outcome costs one of the shared misses. */
  predicate IsMiss(o: Outcome) {
    o.NotInKeyword? || o.IncorrectWord?
  }

  /** The points the guesser gains. */
  function Award(o: Outcome): (n: nat)
    ensures n > 0 <==> o.Occurrence? || o.Win?
    ensures n == WinPoints <==> Ends(o)
    ensures n > 0 ==> !IsMiss(o)
  {
    if Ends(o) then WinPoints
    else if o.Occurrence? then LetterPoints
    else 0
  }

  /**
   * A letter guess: the letter is lower-cased; if it occurs, the outcome
   * reports how often and a mask of the keyword's length, the shared miss
   * counter is kept, and the guesser gains 5 when nothing is left hidden
   * and 1 otherwise; if it does not occur, it is a miss worth nothing.
   */
  lemma JudgeLetter(keyword: string, turnCount: int, guess: string)
    requires |guess| == 1
    ensures var letter := LowerChar(guess[0]);
            var o := Judge(keyword, turnCount, guess);
            (o.Occurrence? <==> letter in keyword) &&
            (o.NotInKeyword? <==> letter !in keyword) &&
            (o.Occurrence? ==>
               o.count >= 1 && o.count == multiset(keyword)[letter] && |o.mask| == |keyword| &&
               (letter != Hidden ==>
                  Count(o.mask, letter) == o.count && o.count == |keyword| - Count(o.mask, Hidden)) &&
               !IsMiss(o) &&
               (Award(o) == WinPoints <==> Hidden !in o.mask) &&
               (Award(o) == LetterPoints <==> Hidden in o.mask)) &&
            (o.NotInKeyword? ==> IsMiss(o) && Award(o) == 0 && !Ends(o))
  {
    var letter := LowerChar(guess[0]);
    if letter in keyword {
      CountIsMultiplicity(keyword, letter);
      RevealedIff(Mask(keyword, letter));
      if letter != Hidden {
        MaskShowsCount(keyword, letter);
      }
    }
  }

  /**
   * A letter guess wins the round only when the keyword consists of that
   * one letter repeated: the mask shows the current letter alone.
   */
  lemma LetterWinsOnlyRepeatedKeyword(keyword: string, turnCount: int, guess: string)
    requires |guess| == 1
    ensures Ends(Judge(keyword, turnCount, guess)) <==>
              keyword != [] && LowerChar(guess[0]) != Hidden &&
              forall i :: 0 <= i < |keyword| ==> keyword[i] == LowerChar(guess[0])
  {
    var letter := LowerChar(guess[0]);
    if letter in keyword {
      MaskCompleteIff(keyword, letter);
      CountAll(keyword, letter);
      RevealedIff(Mask(keyword, letter));
    } else if keyword != [] {
      assert keyword[0] != letter;
    }
  }

  /**
   * A guess of any other length: before the first miss it is refused and
   * changes nothing; afterwards it wins 5 points and the round when its
   * lower-cased form is the keyword, and is otherwise a miss worth nothing.
   */
  lemma JudgeWord(keyword: string, turnCount: int, guess: string)
    requires |guess| != 1
    ensures var o := Judge(keyword, turnCount, guess);
            (turnCount < 1 ==> o == TooEarly && !IsMiss(o) && Award(o) == 0 && !Ends(o)) &&
            (turnCount >= 1 && Lower(guess) == keyword ==> o == Win && !IsMiss(o) && Award(o) == WinPoints) &&
            (turnCount >= 1 && Lower(guess) != keyword ==> o == IncorrectWord && IsMiss(o) && Award(o) == 0)
  {
  }

  /**
   * Against a stored (lower-case) keyword, a whole-word guess wins
   * regardless of the guess's letter case, and only then.
   */
  lemma WordGuessIgnoresCase(keyword: string, turnCount: int, guess: string)
    requires Normalized(keyword) && |guess| != 1 && turnCount >= 1
    ensures Judge(keyword, turnCount, guess) == Win <==> Lower(guess) == Lower(keyword)
  {
  }

  /**
   * The letter case of a guess never matters: a guess and its lower-cased
   * form get the same verdict, letters and whole words alike.
   */
  lemma GuessCaseIgnored(keyword: string, turnCount: int, guess: string)
    ensures Judge(keyword, turnCount, guess) == Judge(keyword, turnCount, Lower(guess))
  {
  }

  // ---------------------------------------------------------------------------
  // Histories of guesses

  /** One guess as it arrives on a player's connection. */
  datatype Move = Move(nick: string, guess: string)

  /** The number of misses among the outcomes. */
  function MissCount(os: seq<Outcome>): (n: nat)
    ensures n <= |os|
  {
    if os == [] then 0
    else (if IsMiss(os[0]) then 1 else 0) + MissCount(os[1..])
  }

  /**
   * The outcomes of the gameplay loop fed the moves `ms`, starting from the
   * keyword, the miss counter and the win flag given: each move is judged
   * while the guard (no win, fewer than 5 misses) holds, and the first move
   * that finds it false ends the loop.
   */
  function Run(keyword: string, turnCount: int, won: bool, ms: seq<Move>): (os: seq<Outcome>)
    ensures |os| <= |ms|
    decreases ms
  {
    if ms == [] || won || turnCount >= TurnLimit then []
    else
      var o := Judge(keyword, turnCount, ms[0].guess);
      [o] + Run(keyword, turnCount + (if IsMiss(o) then 1 else 0), Ends(o), ms[1..])
  }

  /** Once the guard is false, or no guess is left, the loop judges nothing more. */
  lemma RunDone(keyword: string, turnCount: int, won: bool, ms: seq<Move>)
    requires ms == [] || won || turnCount >= TurnLimit
    ensures Run(keyword, turnCount, won, ms) == []
  {
  }

  /** The shared miss counter never passes the loop's bound. */
  lemma {:induction false} RunStaysInBudget(keyword: string, turnCount: int, won: bool, ms: seq<Move>)
    requires turnCount <= TurnLimit
    ensures turnCount + MissCount(Run(keyword, turnCount, won, ms)) <= TurnLimit
    decreases ms
  {
    if !(ms == [] || won || turnCount >= TurnLimit) {
      var o := Judge(keyword, turnCount, ms[0].guess);
      RunStaysInBudget(keyword, turnCount + (if IsMiss(o) then 1 else 0), Ends(o), ms[1..]);
    }
  }

  /** One step of the loop: the first move is judged and the rest runs from the new state. */
  lemma RunFirst(keyword: string, turnCount: int, won: bool, ms: seq<Move>)
    requires ms != [] && !won && turnCount < TurnLimit
    ensures var o := Judge(keyword, turnCount, ms[0].guess);
            Run(keyword, turnCount, won, ms) ==
              [o] + Run(keyword, turnCount + (if IsMiss(o) then 1 else 0), Ends(o), ms[1..])
  {
  }

  /** The loop's record of outcomes stays a prefix of the whole run after one more judged move. */
  lemma RunAdvance(keyword: string, turnCount: int, won: bool, ms: seq<Move>, i: nat, full: seq<Outcome>)
    requires i < |ms| && !won && turnCount < TurnLimit
    requires i <= |full| && Run(keyword, turnCount, won, ms[i..]) == full[i..]
    ensures var o := Judge(keyword, turnCount, ms[i].guess);
            i < |full| && full[i] == o &&
            Run(keyword, turnCount + (if IsMiss(o) then 1 else 0), Ends(o), ms[i + 1..]) == full[i + 1..]
  {
    assert ms[i..][0] == ms[i] && ms[i..][1..] == ms[i + 1..];
    RunFirst(keyword, turnCount, won, ms[i..]);
    assert full[i..][1..] == full[i + 1..];
  }

  /** Only the last outcome may be a win. */
  predicate WinIsLast(os: seq<Outcome>) {
    forall i :: 0 <= i < |os| - 1 ==> !Ends(os[i])
  }

  /** No move is judged after a win: a winning outcome can only be the last one. */
  lemma {:induction false} RunEndsAtWin(keyword: string, turnCount: int, won: bool, ms: seq<Move>)
    ensures WinIsLast(Run(keyword, turnCount, won, ms))
    decreases ms
  {
    if !(ms == [] || won || turnCount >= TurnLimit) {
      var o := Judge(keyword, turnCount, ms[0].guess);
      var rest := Run(keyword, turnCount + (if IsMiss(o) then 1 else 0), Ends(o), ms[1..]);
      RunEndsAtWin(keyword, turnCount + (if IsMiss(o) then 1 else 0), Ends(o), ms[1..]);
      var os := [o] + rest;
      assert os == Run(keyword, turnCount, won, ms);
      assert Ends(o) ==> rest == [];
      forall i | 0 <= i < |os| - 1 ensures !Ends(os[i]) {
        if i > 0 {
          assert os[i] == rest[i - 1];
        }
      }
    }
  }

  /**
   * The loop leaves moves unjudged only when the game is over: it was won
   * before it started, a judged move won it, or the misses reached the bound.
   */
  lemma {:induction false} RunStopsOnlyWhenOver(keyword: string, turnCount: int, won: bool, ms: seq<Move>)
    ensures var os := Run(keyword, turnCount, won, ms);
            |os| < |ms| ==>
              won || (os != [] && Ends(os[|os| - 1])) || turnCount + MissCount(os) >= TurnLimit
    decreases ms
  {
    if !(ms == [] || won || turnCount >= TurnLimit) {
      var o := Judge(keyword, turnCount, ms[0].guess);
      var rest := Run(keyword, turnCount + (if IsMiss(o) then 1 else 0), Ends(o), ms[1..]);
      RunStopsOnlyWhenOver(keyword, turnCount + (if IsMiss(o) then 1 else 0), Ends(o), ms[1..]);
      assert ([o] + rest)[1..] == rest;
    }
  }

  /** The points `nick` gained over the moves judged so far (moves and outcomes pair up). */
  function Earned(nick: string, ms: seq<Move>, os: seq<Outcome>): int
    requires |ms| == |os|
  {
    if os == [] then 0
    else
      Earned(nick, ms[..|ms| - 1], os[..|os| - 1])
        + (if ms[|ms| - 1].nick == nick then Award(os[|os| - 1]) else 0)
  }

  /**
   * The points table after crediting each judged move's award to its
   * guesser, starting from `points`; a guesser without an entry is skipped.
   */
  function Credited(points: map<string, int>, ms: seq<Move>, os: seq<Outcome>): map<string, int>
    requires |ms| == |os|
  {
    if os == [] then points
    else
      var before := Credited(points, ms[..|ms| - 1], os[..|os| - 1]);
      var nick := ms[|ms| - 1].nick;
      if nick in before then before[nick := before[nick] + Award(os[|os| - 1])] else before
  }

  /** Crediting adds and removes no entries: the players are the ones the table started with. */
  lemma {:induction false} CreditedKeys(points: map<string, int>, ms: seq<Move>, os: seq<Outcome>)
    requires |ms| == |os|
    ensures Credited(points, ms, os).Keys == points.Keys
  {
    if os != [] {
      CreditedKeys(points, ms[..|ms| - 1], os[..|os| - 1]);
    }
  }

  /** Each player's entry in the credited table is their starting points plus what they earned. */
  lemma {:induction false} CreditedIsEarned(points: map<string, int>, ms: seq<Move>, os: seq<Outcome>, nick: string)
    requires |ms| == |os| && nick in points
    ensures nick in Credited(points, ms, os)
    ensures Credited(points, ms, os)[nick] == points[nick] + Earned(nick, ms, os)
  {
    if os != [] {
      CreditedIsEarned(points, ms[..|ms| - 1], os[..|os| - 1], nick);
    }
  }

  /** Crediting one more judged move updates its guesser's entry alone. */
  lemma CreditedStep(points: map<string, int>, ms: seq<Move>, i: nat, os: seq<Outcome>, o: Outcome)
    requires i < |ms| && |os| == i && ms[i].nick in Credited(points, ms[..i], os)
    ensures var before := Credited(points, ms[..i], os);
            Credited(points, ms[..i + 1], os + [o]) == before[ms[i].nick := before[ms[i].nick] + Award(o)]
  {
    var ms', os' := ms[..i + 1], os + [o];
    assert ms'[..|ms'| - 1] == ms[..i] && ms'[|ms'| - 1] == ms[i];
    assert os'[..|os'| - 1] == os && os'[|os'| - 1] == o;
  }

  /** Judging one more move adds its miss, if it is one. */
  lemma {:induction false} MissCountStep(os: seq<Outcome>, o: Outcome)
    ensures MissCount(os + [o]) == MissCount(os) + (if IsMiss(o) then 1 else 0)
  {
    if os != [] {
      MissCountStep(os[1..], o);
      assert (os + [o])[1..] == os[1..] + [o];
    }
  }

  /** Points never decrease: nothing a guess does takes points away. */
  lemma {:induction false} EarnedNonNegative(nick: string, ms: seq<Move>, os: seq<Outcome>)
    requires |ms| == |os|
    ensures Earned(nick, ms, os) >= 0
  {
    if os != [] {
      EarnedNonNegative(nick, ms[..|ms| - 1], os[..|os| - 1]);
    }
  }

  /** Only the guesser's points change: a player who made none of the moves gains nothing. */
  lemma {:induction false} EarnedOnlyByGuesser(nick: string, ms: seq<Move>, os: seq<Outcome>)
    requires |ms| == |os|
    requires forall i :: 0 <= i < |ms| ==> ms[i].nick != nick
    ensures Earned(nick, ms, os) == 0
  {
    if os != [] {
      EarnedOnlyByGuesser(nick, ms[..|ms| - 1], os[..|os| - 1]);
    }
  }

  /** A player's gains are bounded by 5 points per judged move, whoever made it. */
  lemma {:induction false} EarnedAtMost(nick: string, ms: seq<Move>, os: seq<Outcome>)
    requires |ms| == |os|
    ensures Earned(nick, ms, os) <= WinPoints * |os|
  {
    if os != [] {
      EarnedAtMost(nick, ms[..|ms| - 1], os[..|os| - 1]);
    }
  }

  /** One pass of the gameplay loop keeps the loop's account of the run and of the misses. */
  lemma PlayStep(keyword: string, turns0: int, moves: seq<Move>, i: nat, full: seq<Outcome>,
                 outcomes: seq<Outcome>, turnCount: int, o: Outcome, turnCount': int, won': bool)
    requires i < |moves| && turnCount < TurnLimit
    requires |outcomes| == i && i <= |full| && outcomes == full[..i]
    requires Run(keyword, turnCount, false, moves[i..]) == full[i..]
    requires turnCount == turns0 + MissCount(outcomes)
    requires o == Judge(keyword, turnCount, moves[i].guess)
    requires turnCount' == turnCount + (if IsMiss(o) then 1 else 0) && won' == Ends(o)
    ensures i + 1 <= |full| && outcomes + [o] == full[..i + 1]
    ensures Run(keyword, turnCount', won', moves[i + 1..]) == full[i + 1..]
    ensures turnCount' == turns0 + MissCount(outcomes + [o])
  {
    RunAdvance(keyword, turnCount, false, moves, i, full);
    assert full[..i + 1] == full[..i] + [o];
    MissCountStep(outcomes, o);
  }

  // ---------------------------------------------------------------------------
  // The roster

  /** Result of a registration attempt. */
  datatype Registration = Registered(order: nat) | NicknameTaken

  /**
   * The roster invariant, stated the way registrations build the roster:
   * an empty roster has empty points and order tables; otherwise the last
   * nickname is not among the earlier ones, has a score of at least 0 and
   * its 1-based position as its order, and the rest is a valid roster.
   */
  ghost predicate RosterOk(players: seq<string>, points: map<string, int>, order: map<string, int>)
    decreases |players|
  {
    if players == [] then points == map[] && order == map[]
    else
      var nick := players[|players| - 1];
      var earlier := players[..|players| - 1];
      nick !in earlier && nick in points && nick in order &&
      points[nick] >= 0 && order[nick] == |players| &&
      RosterOk(earlier, points - {nick}, order - {nick})
  }

  /** A nickname has a score and an order exactly when it is on the roster. */
  lemma {:induction false} RosterKeys(players: seq<string>, points: map<string, int>, order: map<string, int>)
    requires RosterOk(players, points, order)
    ensures forall p :: p in points <==> p in players
    ensures forall p :: p in order <==> p in players
    decreases |players|
  {
    if players != [] {
      var nick := players[|players| - 1];
      var earlier := players[..|players| - 1];
      RosterKeys(earlier, points - {nick}, order - {nick});
      assert players == earlier + [nick];
    }
  }

  /**
   * Roster entries are distinct, each nickname's order is its 1-based
   * position, and no score is negative.
   */
  lemma {:induction false} RosterFacts(players: seq<string>, points: map<string, int>, order: map<string, int>)
    requires RosterOk(players, points, order)
    ensures forall i, j :: 0 <= i < j < |players| ==> players[i] != players[j]
    ensures forall i :: 0 <= i < |players| ==> players[i] in order && order[players[i]] == i + 1
    ensures forall p :: p in points ==> points[p] >= 0
    decreases |players|
  {
    if players != [] {
      var nick := players[|players| - 1];
      var earlier := players[..|players| - 1];
      RosterFacts(earlier, points - {nick}, order - {nick});
      RosterKeys(players, points, order);
      forall i, j | 0 <= i < j < |players| ensures players[i] != players[j] {
        if j == |players| - 1 {
          assert players[i] == earlier[i];
        } else {
          assert players[i] == earlier[i] && players[j] == earlier[j];
        }
      }
      forall i | 0 <= i < |players| ensures players[i] in order && order[players[i]] == i + 1 {
        if i < |players| - 1 {
          assert players[i] == earlier[i];
          assert players[i] in order - {nick};
        }
      }
      forall p | p in points ensures points[p] >= 0 {
        if p != nick {
          assert p in points - {nick};
        }
      }
    }
  }

  /** The orders handed out are exactly 1..|players|, one per nickname. */
  lemma OrdersArePositions(players: seq<string>, points: map<string, int>, order: map<string, int>)
    requires RosterOk(players, points, order)
    ensures forall p :: p in order ==> 1 <= order[p] <= |players| && players[order[p] - 1] == p
  {
    RosterKeys(players, points, order);
    RosterFacts(players, points, order);
    forall p | p in order ensures 1 <= order[p] <= |players| && players[order[p] - 1] == p {
      var i :| 0 <= i < |players| && players[i] == p;
    }
  }

  /** Crediting a registered player keeps the roster invariant. */
  lemma {:induction false} RosterCredit(players: seq<string>, points: map<string, int>, order: map<string, int>,
                                        nick: string, n: nat)
    requires RosterOk(players, points, order) && nick in points
    ensures RosterOk(players, points[nick := points[nick] + n], order)
    decreases |players|
  {
    RosterKeys(players, points, order);
    var last := players[|players| - 1];
    var earlier := players[..|players| - 1];
    var points' := points[nick := points[nick] + n];
    if nick == last {
      assert points' - {last} == points - {last};
    } else {
      assert players == earlier + [last];
      assert nick in points - {last};
      RosterCredit(earlier, points - {last}, order - {last}, nick, n);
      assert points' - {last} == (points - {last})[nick := points[nick] + n];
    }
  }

  /**
   * Appending a nickname not yet on the roster, with 0 points and the new
   * roster length as its order, keeps the roster invariant.
   */
  lemma RosterAppend(players: seq<string>, points: map<string, int>, order: map<string, int>, nick: string)
    requires RosterOk(players, points, order) && nick !in players
    ensures RosterOk(players + [nick], points[nick := 0], order[nick := |players| + 1])
  {
    RosterKeys(players, points, order);
    assert (players + [nick])[..|players|] == players;
    assert points[nick := 0] - {nick} == points;
    assert order[nick := |players| + 1] - {nick} == order;
  }

  // ---------------------------------------------------------------------------
  // The shared server state

  class GameServer {
    var players: seq<string>
    var points: map<string, int>
    var order: map<string, int>
    var keyword: string
    var hint: string
    var correctKeyword: bool
    var turnCount: int

    ghost predicate Valid()
      reads this
    {
      RosterOk(players, points, order) && 0 <= turnCount <= TurnLimit
    }

    /** The guard of the gameplay loop. */
    predicate Running()
      reads this
    {
      !correctKeyword && turnCount < TurnLimit
    }

    /** The state when the server starts: nobody registered, no keyword yet. */
    constructor ()
      ensures Valid() && Running()
      ensures players == [] && points == map[] && order == map[]
      ensures keyword == "" && hint == "" && !correctKeyword && turnCount == 0
    {
      players, points, order := [], map[], map[];
      keyword, hint := "", "";
      correctKeyword, turnCount := false, 0;
    }

    /**
     * Registers `nick`: an exact (case-sensitive) duplicate is refused and
     * changes nothing; any other nickname goes to the end of the roster
     * with 0 points and its 1-based position as its order.
     */
    method Register(nick: string) returns (r: Registration)
      requires Valid()
      modifies this`players, this`points, this`order
      ensures Valid()
      ensures r.NicknameTaken? <==> nick in old(players)
      ensures r.NicknameTaken? ==>
                players == old(players) && points == old(points) && order == old(order)
      ensures r.Registered? ==>
                players == old(players) + [nick] &&
                points == old(points)[nick := 0] &&
                order == old(order)[nick := |players|] &&
                r.order == |players|
    {
      if nick in players {
        return NicknameTaken;
      }
      RosterAppend(players, points, order, nick);
      players := players + [nick];
      points := points[nick := 0];
      order := order[nick := |players|];
      r := Registered(order[nick]);
    }

    /**
     * Draws record `k` of the keyword file. The keyword is replaced when its
     * line exists, the hint only when its line exists too; the win flag and
     * the miss counter are not reset. Returns the start mask to announce
     * when the record was read whole; when a line is missing the server
     * raises before announcing anything, and no mask is returned.
     */
    method DrawKeyword(lines: seq<string>, k: int) returns (r: Selection, startMask: Option<string>)
      requires Valid() && k >= 1
      modifies this`keyword, this`hint
      ensures Valid()
      ensures r == Select(lines, k)
      ensures keyword == (if r.RecordMissing? then old(keyword) else r.keyword)
      ensures hint == (if r.Selected? then r.hint else old(hint))
      ensures startMask == (if r.Selected? then Some(StartMask(keyword)) else None)
    {
      r := Select(lines, k);
      var newKeyword, newHint := keyword, hint;
      startMask := None;
      if !r.RecordMissing? {
        newKeyword := r.keyword;
        if r.Selected? {
          newHint := r.hint;
          startMask := Some(StartMask(newKeyword));
        }
      }
      keyword, hint := newKeyword, newHint;
    }

    /** `player_points[nick] += n` for a registered nickname. */
    method Credit(nick: string, n: nat)
      requires Valid() && nick in points
      modifies this`points
      ensures Valid()
      ensures points == old(points)[nick := old(points)[nick] + n]
    {
      RosterCredit(players, points, order, nick, n);
      points := points[nick := points[nick] + n];
    }

    /**
     * One pass of the gameplay loop for `nick`'s guess, run only while the
     * loop guard holds. The outcome is the verdict of `Judge`; the guesser
     * alone gains its award, a miss adds one to the shared counter, and the
     * win flag is set exactly when the keyword is completed.
     */
    method ProcessGuess(nick: string, guess: string) returns (o: Outcome)
      requires Valid() && Running()
      requires nick in points
      modifies this`points, this`correctKeyword, this`turnCount
      ensures Valid()
      ensures o == Judge(old(keyword), old(turnCount), guess)
      ensures points == old(points)[nick := old(points)[nick] + Award(o)]
      ensures turnCount == old(turnCount) + (if IsMiss(o) then 1 else 0)
      ensures correctKeyword == Ends(o)
    {
      if |guess| == 1 {
        o := GuessLetter(nick, LowerChar(guess[0]));
      } else {
        o := GuessWord(nick, guess);
      }
    }

    /** The branch of the loop body for a guess of length 1, given the lower-cased letter. */
    method GuessLetter(nick: string, letter: char) returns (o: Outcome)
      requires Valid() && Running()
      requires nick in points
      modifies this`points, this`correctKeyword, this`turnCount
      ensures Valid()
      ensures o == JudgeLetterGuess(old(keyword), letter)
      ensures points == old(points)[nick := old(points)[nick] + Award(o)]
      ensures turnCount == old(turnCount) + (if IsMiss(o) then 1 else 0)
      ensures correctKeyword == Ends(o)
    {
      if letter in keyword {
        var count := Count(keyword, letter);
        var revealed := Mask(keyword, letter);
        o := Occurrence(count, revealed);
        RevealedIff(revealed);
        if Hidden !in revealed {
          correctKeyword := true;
          Credit(nick, WinPoints);
        } else {
          Credit(nick, LetterPoints);
        }
      } else {
        o := NotInKeyword;
        turnCount := turnCount + 1;
      }
    }

    /** The branch of the loop body for a guess of any other length. */
    method GuessWord(nick: string, guess: string) returns (o: Outcome)
      requires Valid() && Running()
      requires nick in points
      modifies this`points, this`correctKeyword, this`turnCount
      ensures Valid()
      ensures o == JudgeWordGuess(old(keyword), old(turnCount), guess)
      ensures points == old(points)[nick := old(points)[nick] + Award(o)]
      ensures turnCount == old(turnCount) + (if IsMiss(o) then 1 else 0)
      ensures correctKeyword == Ends(o)
    {
      if turnCount >= 1 {
        if Lower(guess) == keyword {
          correctKeyword := true;
          Credit(nick, WinPoints);
          o := Win;
        } else {
          o := IncorrectWord;
          turnCount := turnCount + 1;
        }
      } else {
        o := TooEarly;
      }
    }

    /** One pass of the loop in `Play`: the next move is processed and the loop's account is carried forward. */
    method PlayMove(moves: seq<Move>, i: nat, ghost full: seq<Outcome>, ghost turns0: int,
                    ghost points0: map<string, int>, ghost outcomes: seq<Outcome>) returns (o: Outcome)
      requires Valid() && Running()
      requires i < |moves| && moves[i].nick in points
      requires |outcomes| == i && i <= |full| && outcomes == full[..i]
      requires Run(keyword, turnCount, correctKeyword, moves[i..]) == full[i..]
      requires turnCount == turns0 + MissCount(outcomes)
      requires points == Credited(points0, moves[..i], outcomes)
      modifies this`points, this`correctKeyword, this`turnCount
      ensures Valid() && points.Keys == old(points).Keys
      ensures i + 1 <= |full| && outcomes + [o] == full[..i + 1]
      ensures Run(keyword, turnCount, correctKeyword, moves[i + 1..]) == full[i + 1..]
      ensures turnCount == turns0 + MissCount(outcomes + [o])
      ensures correctKeyword == Ends(o)
      ensures points == Credited(points0, moves[..i + 1], outcomes + [o])
    {
      ghost var turnCount0 := turnCount;
      CreditedStep(points0, moves, i, outcomes, Judge(keyword, turnCount, moves[i].guess));
      o := ProcessGuess(moves[i].nick, moves[i].guess);
      PlayStep(keyword, turns0, moves, i, full, outcomes, turnCount0, o, turnCount, correctKeyword);
    }

    /**
     * The gameplay loop over the guesses as they arrive, from any player:
     * each is judged while the guard holds, and the loop stops at the first
     * guess that finds it false.
     */
    method Play(moves: seq<Move>) returns (outcomes: seq<Outcome>)
      requires Valid()
      requires forall i :: 0 <= i < |moves| ==> moves[i].nick in points
      modifies this`points, this`correctKeyword, this`turnCount
      ensures Valid()
      ensures outcomes == Run(keyword, old(turnCount), old(correctKeyword), moves)
      ensures |outcomes| < |moves| ==> !Running()
      ensures turnCount == old(turnCount) + MissCount(outcomes)
      ensures correctKeyword == (old(correctKeyword) || (outcomes != [] && Ends(outcomes[|outcomes| - 1])))
      ensures points == Credited(old(points), moves[..|outcomes|], outcomes)
    {
      outcomes := [];
      var i := 0;
      ghost var full := Run(keyword, turnCount, correctKeyword, moves);
      ghost var turns0, won0, points0 := turnCount, correctKeyword, points;
      while i < |moves| && Running()
        invariant Valid() && points.Keys == points0.Keys
        invariant 0 <= i <= |moves| && |outcomes| == i && i <= |full|
        invariant outcomes == full[..i]
        invariant Run(keyword, turnCount, correctKeyword, moves[i..]) == full[i..]
        invariant turnCount == turns0 + MissCount(outcomes)
        invariant correctKeyword == (won0 || (outcomes != [] && Ends(outcomes[i - 1])))
        invariant points == Credited(points0, moves[..i], outcomes)
      {
        var o := PlayMove(moves, i, full, turns0, points0, outcomes);
        outcomes := outcomes + [o];
        i := i + 1;
      }
      RunDone(keyword, turnCount, correctKeyword, moves[i..]);
      assert outcomes == full;
    }
  }
}
