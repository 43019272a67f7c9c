/**
  The web bracket of caifan-tournament/components/Tournament.tsx: the component's
  state (`currentRound`, `nextRound`, `pair`, `index`, `roundSize`, `winner`),
  its two handlers `restart` and `choose`, the derived `totalMatches` and
  `matchNumber`, and the image key `toFileKey`.

  The state is the class `Tournament`; each handler's group of setters is one
  update of its fields.  `Board` is the same state as a value, and `Chose` is
  the step of `choose` on it, so that runs of several presses can be reasoned
  about.  The item list the component is given must have a power-of-two size of
  at least two, for which every read of `currentRound` stays in range.
*/
module WebBracket {
  import opened Wrappers
  import opened Sequences
  import opened Shuffling

  // ---------------------------------------------------------------------------
  // toFileKey: drop every whitespace character, then lower-case (ASCII).

  /** The characters of the ASCII class `\s`. */
  predicate IsSpace(c: char)
  {
    c == ' ' || c == '\t' || c == '\n' || c == '\U{B}' || c == '\U{C}' || c == '\r'
  }

  predicate IsUpper(c: char)
  {
    'A' <= c <= 'Z'
  }

  /** `toLowerCase` on one ASCII character. */
  function Lower(c: char): char
  {
    if IsUpper(c) then (c as int + 32) as char else c
  }

  /** `name.replace(/\s+/g, "")`: every run of whitespace removed. */
  function StripSpace(s: string): string
  {
    if s == [] then []
    else if IsSpace(s[0]) then StripSpace(s[1..])
    else [s[0]] + StripSpace(s[1..])
  }

  function LowerAll(s: string): string
  {
    if s == [] then [] else [Lower(s[0])] + LowerAll(s[1..])
  }

  /** A string that `toFileKey` cannot change any further. */
  predicate IsFileKey(s: string)
  {
    forall i :: 0 <= i < |s| ==> !IsSpace(s[i]) && !IsUpper(s[i])
  }

  lemma {:induction false} StripSpaceClean(s: string)
    ensures forall i :: 0 <= i < |StripSpace(s)| ==> !IsSpace(StripSpace(s)[i])
    ensures |StripSpace(s)| <= |s|
    ensures (forall i :: 0 <= i < |s| ==> !IsSpace(s[i])) ==> StripSpace(s) == s
  {
    if s != [] {
      StripSpaceClean(s[1..]);
      if !IsSpace(s[0]) {
        var rest := StripSpace(s[1..]);
        assert StripSpace(s) == [s[0]] + rest;
        assert forall i :: 1 <= i < |[s[0]] + rest| ==> ([s[0]] + rest)[i] == rest[i - 1];
      }
    }
  }

  lemma {:induction false} LowerAllClean(s: string)
    ensures |LowerAll(s)| == |s|
    ensures forall i :: 0 <= i < |s| ==> !IsUpper(LowerAll(s)[i])
    ensures forall i :: 0 <= i < |s| ==> (IsSpace(LowerAll(s)[i]) <==> IsSpace(s[i]))
    ensures (forall i :: 0 <= i < |s| ==> !IsUpper(s[i])) ==> LowerAll(s) == s
  {
    if s != [] {
      LowerAllClean(s[1..]);
      var rest := LowerAll(s[1..]);
      assert LowerAll(s) == [Lower(s[0])] + rest;
      assert forall i :: 1 <= i < |s| ==> LowerAll(s)[i] == rest[i - 1];
    }
  }

  /** `toFileKey` (lines 21-23): the key never holds whitespace or an upper-case
      letter, and is no longer than the name. */
  function FileKey(name: string): (key: string)
    ensures IsFileKey(key)
    ensures |key| <= |name|
  {
    StripSpaceClean(name);
    LowerAllClean(StripSpace(name));
    LowerAll(StripSpace(name))
  }

  /** The strings `toFileKey` leaves as they are are exactly the keys. */
  lemma FileKeyFixedPoint(s: string)
    ensures FileKey(s) == s <==> IsFileKey(s)
  {
    if IsFileKey(s) {
      StripSpaceClean(s);
      LowerAllClean(s);
    }
  }

  /** Taking the key of a key changes nothing. */
  lemma FileKeyIdempotent(name: string)
    ensures FileKey(FileKey(name)) == FileKey(name)
  {
    FileKeyFixedPoint(FileKey(name));
  }

  // ---------------------------------------------------------------------------
  // The component's state as a value.

  datatype Board = Board(
    currentRound: seq<string>,
    nextRound: seq<string>,
    pair: (string, string),
    index: int,
    roundSize: int,
    winner: Option<string>)

  /** The state the component starts from, and `restart` returns to, once the
      items have been shuffled into `s` (lines 67-76 and 80-88). */
  function Opening(s: seq<string>): Board
    requires |s| >= 2
  {
    Board(s, [], (s[0], s[1]), 2, |s|, None)
  }

  /** The guard `if (winner) return;`: `null` and the empty string are falsy. */
  predicate Decided(b: Board)
  {
    b.winner.Some? && b.winner.value != ""
  }

  /** The pairing a state keeps: a power-of-two round, `pair` the two items read
      just before `index`, `index` even, one winner so far per finished match,
      `roundSize` the round's length, and a winner only at the final. */
  ghost predicate Coherent(b: Board)
  {
    var cr := b.currentRound;
    && IsPow2(|cr|) && |cr| >= 2 && |cr| % 2 == 0 && b.roundSize == |cr|
    && b.index % 2 == 0 && 2 <= b.index <= |cr|
    && b.pair == (cr[b.index - 2], cr[b.index - 1])
    && |b.nextRound| == b.index / 2 - 1
    && (b.winner.Some? ==> |cr| == 2 && b.nextRound == [])
  }

  /** Presses still needed before a winner is known: the rest of this round,
      the match on offer, and the rounds to come. */
  function Remaining(b: Board): int
  {
    |b.currentRound| - b.index + |b.nextRound| + 1
  }

  /** The items still in the running: the pair on offer, those not yet paired
      this round, and this round's winners so far. */
  function Contenders(b: Board): seq<string>
    requires 2 <= b.index <= |b.currentRound|
  {
    b.currentRound[b.index - 2..] + b.nextRound
  }

  /** The reads of `choose` stay inside `currentRound`. */
  predicate Ready(b: Board)
  {
    0 <= b.index && (b.index < |b.currentRound| ==> b.index + 1 < |b.currentRound|)
  }

  /** `draws` can serve the shuffle that a press in state `b` makes. */
  predicate Shufflable(b: Board, draws: seq<int>)
  {
    !Decided(b) && b.index >= |b.currentRound| ==> ValidDraws(draws, |b.nextRound| + 1)
  }

  /** `choose(chosen)` (lines 90-114) on the state `b`, with `draws` standing in
      for the random numbers of its `shuffle`. */
  function Chose(b: Board, chosen: string, draws: seq<int>): Board
    requires Ready(b) && Shufflable(b, draws)
  {
    if Decided(b) then b
    else
      var updated := b.nextRound + [chosen];
      if b.index < |b.currentRound| then
        b.(nextRound := updated,
           pair := (b.currentRound[b.index], b.currentRound[b.index + 1]),
           index := b.index + 2)
      else
        var winners := Shuffled(updated, draws);
        if |winners| == 1 then b.(winner := Some(winners[0]))
        else Board(winners, [], (winners[0], winners[1]), 2, |winners|, b.winner)
  }

  /** `roundSize / 2` (line 116) for the even sizes a coherent state has. */
  function TotalMatches(b: Board): int
    requires b.roundSize % 2 == 0
  {
    b.roundSize / 2
  }

  /** `Math.min(Math.floor(index / 2), totalMatches)` (line 117); Dafny's `/`
      by a positive divisor rounds down like `Math.floor`. */
  function MatchNumber(b: Board): int
    requires b.roundSize % 2 == 0
  {
    if b.index / 2 < TotalMatches(b) then b.index / 2 else TotalMatches(b)
  }

  // ---------------------------------------------------------------------------
  // Facts about the state machine.

  /** A fresh shuffle of `2^k >= 2` items is a coherent start, `|s| - 1`
      presses from the end, with every item in the running. */
  lemma OpeningCoherent(s: seq<string>)
    requires IsPow2(|s|) && |s| >= 2
    ensures Coherent(Opening(s)) && !Decided(Opening(s))
    ensures Remaining(Opening(s)) == |s| - 1
    ensures Contenders(Opening(s)) == s
  {
  }

  /** The counter shows the match on offer: one more than the winners so far,
      and never more than the matches of the round. */
  lemma MatchNumberBounds(b: Board)
    requires Coherent(b)
    ensures b.roundSize % 2 == 0
    ensures MatchNumber(b) == |b.nextRound| + 1
    ensures 1 <= MatchNumber(b) <= TotalMatches(b)
  {
    HalfOfPow2(|b.currentRound|);
  }

  /** Every press keeps the pairing coherent. */
  lemma ChoseKeepsCoherent(b: Board, chosen: string, draws: seq<int>)
    requires Coherent(b) && Shufflable(b, draws)
    ensures Coherent(Chose(b, chosen, draws))
  {
    if !Decided(b) && b.index >= |b.currentRound| {
      var updated := b.nextRound + [chosen];
      ShuffledPermutes(updated, draws);
      HalfOfPow2(|b.currentRound|);
    }
  }

  /** Once a winner shows, presses change nothing; before that, the last press
      crowns `chosen` and every other press brings the end one press closer. */
  lemma ChoseProgress(b: Board, chosen: string, draws: seq<int>)
    requires Coherent(b) && Shufflable(b, draws)
    ensures Decided(b) ==> Chose(b, chosen, draws) == b
    ensures !Decided(b) ==> Remaining(b) >= 1
    ensures !Decided(b) && Remaining(b) == 1 ==>
      Chose(b, chosen, draws) == b.(winner := Some(chosen))
    ensures !Decided(b) && Remaining(b) > 1 ==>
      Chose(b, chosen, draws).winner == b.winner
      && Remaining(Chose(b, chosen, draws)) == Remaining(b) - 1
  {
    if !Decided(b) && b.index >= |b.currentRound| {
      var updated := b.nextRound + [chosen];
      ShuffledPermutes(updated, draws);
      if |updated| == 1 {
        assert updated == [chosen];
        assert multiset(Shuffled(updated, draws)) == multiset{chosen};
        assert Shuffled(updated, draws)[0] in multiset(Shuffled(updated, draws));
      }
    }
  }

  /** Keeping one of the first two items of `s` and dropping the other loses
      items and adds none. */
  lemma KeepOneOfPair<T>(s: seq<T>, rest: seq<T>, chosen: T, pool: seq<T>)
    requires |s| >= 2 && (chosen == s[0] || chosen == s[1])
    requires multiset(s + rest) <= multiset(pool)
    ensures multiset(s[2..] + rest + [chosen]) <= multiset(pool)
  {
    assert s == [s[0], s[1]] + s[2..];
    calc {
      multiset(s[2..] + rest + [chosen]);
    ==
      multiset(s[2..]) + multiset(rest) + multiset{chosen};
    <=
      multiset(s[2..]) + multiset(rest) + multiset{s[0], s[1]};
    ==
      multiset([s[0], s[1]] + s[2..]) + multiset(rest);
    ==
      multiset(s + rest);
    <=
      multiset(pool);
    }
  }

  /** The items in play, and a winner, come from `items`. */
  ghost predicate Genuine(b: Board, items: seq<string>)
    requires 2 <= b.index <= |b.currentRound|
  {
    && multiset(Contenders(b)) <= multiset(items)
    && (b.winner.Some? ==> b.winner.value in items)
  }

  /** A mid-round press on an offered item keeps the items in play genuine. */
  lemma MidRoundGenuine(b: Board, chosen: string, items: seq<string>)
    requires Coherent(b) && Genuine(b, items) && b.index < |b.currentRound|
    requires chosen == b.pair.0 || chosen == b.pair.1
    ensures b.index + 2 <= |b.currentRound|
    ensures Genuine(b.(nextRound := b.nextRound + [chosen],
                       pair := (b.currentRound[b.index], b.currentRound[b.index + 1]),
                       index := b.index + 2), items)
  {
    HalfOfPow2(|b.currentRound|);
    var after := b.(nextRound := b.nextRound + [chosen],
                    pair := (b.currentRound[b.index], b.currentRound[b.index + 1]),
                    index := b.index + 2);
    var s := b.currentRound[b.index - 2..];
    assert s + b.nextRound == Contenders(b);
    KeepOneOfPair(s, b.nextRound, chosen, items);
    assert Contenders(after) == s[2..] + b.nextRound + [chosen];
  }

  /** The final press on an offered item crowns one of the items. */
  lemma CrownGenuine(b: Board, chosen: string, items: seq<string>)
    requires Coherent(b) && Genuine(b, items)
    requires chosen == b.pair.0 || chosen == b.pair.1
    ensures Genuine(b.(winner := Some(chosen)), items)
  {
    var c := Contenders(b);
    assert chosen == c[0] || chosen == c[1];
    InSub(chosen, c, items);
    assert Contenders(b.(winner := Some(chosen))) == c;
  }

  /** A new round made of this round's winners holds only genuine items. */
  lemma NewRoundGenuine(b: Board, chosen: string, winners: seq<string>, items: seq<string>)
    requires Coherent(b) && Genuine(b, items) && b.index >= |b.currentRound|
    requires chosen == b.pair.0 || chosen == b.pair.1
    requires multiset(winners) == multiset(b.nextRound + [chosen]) && |winners| >= 2
    ensures multiset(Contenders(Board(winners, [], (winners[0], winners[1]), 2, |winners|, b.winner))) <= multiset(items)
  {
    var s := b.currentRound[b.index - 2..];
    assert s + b.nextRound == Contenders(b);
    KeepOneOfPair(s, b.nextRound, chosen, items);
    assert s[2..] + b.nextRound + [chosen] == b.nextRound + [chosen];
    assert Contenders(Board(winners, [], (winners[0], winners[1]), 2, |winners|, b.winner)) == winners;
  }

  /** A press on one of the two offered items brings in nothing from outside. */
  lemma ChoseKeepsGenuine(b: Board, chosen: string, draws: seq<int>, items: seq<string>)
    requires Coherent(b) && Shufflable(b, draws) && Genuine(b, items)
    requires chosen == b.pair.0 || chosen == b.pair.1
    ensures Coherent(Chose(b, chosen, draws)) && Genuine(Chose(b, chosen, draws), items)
  {
    ChoseKeepsCoherent(b, chosen, draws);
    if !Decided(b) {
      var updated := b.nextRound + [chosen];
      if b.index < |b.currentRound| {
        MidRoundGenuine(b, chosen, items);
        assert Chose(b, chosen, draws) == b.(nextRound := updated,
          pair := (b.currentRound[b.index], b.currentRound[b.index + 1]), index := b.index + 2);
      } else {
        var winners := Shuffled(updated, draws);
        ShuffledPermutes(updated, draws);
        if |winners| == 1 {
          ChoseProgress(b, chosen, draws);
          CrownGenuine(b, chosen, items);
        } else {
          NewRoundGenuine(b, chosen, winners, items);
          assert Chose(b, chosen, draws) == Board(winners, [], (winners[0], winners[1]), 2, |winners|, b.winner);
        }
      }
    }
  }

  /** A source of random draws for every list the component may shuffle. */
  ghost predicate Dealer(deal: seq<string> -> seq<int>)
  {
    forall l :: ValidDraws(deal(l), |l|)
  }

  /** The state after a run of presses, `true` for the first button and `false`
      for the second; `deal` gives the draws of each shuffle. */
  ghost function Run(b: Board, picks: seq<bool>, deal: seq<string> -> seq<int>): Board
    requires Dealer(deal)
    decreases |picks|
  {
    if picks == [] || !Ready(b) then b
    else
      var chosen := if picks[0] then b.pair.0 else b.pair.1;
      Run(Chose(b, chosen, deal(b.nextRound + [chosen])), picks[1..], deal)
  }

  /** A run that has presses left and a board `Chose` accepts goes on from the
      board after its first press. */
  lemma RunUnfold(b: Board, picks: seq<bool>, deal: seq<string> -> seq<int>)
    requires Dealer(deal) && picks != [] && Ready(b)
    ensures var chosen := if picks[0] then b.pair.0 else b.pair.1;
      Run(b, picks, deal) == Run(Chose(b, chosen, deal(b.nextRound + [chosen])), picks[1..], deal)
  {
  }

  /** One press of a run: what it leaves behind, and how far from the end. */
  lemma RunStep(b: Board, picks: seq<bool>, deal: seq<string> -> seq<int>, items: seq<string>)
      returns (after: Board)
    requires Coherent(b) && Dealer(deal) && Genuine(b, items)
    requires b.winner.None? && picks != []
    ensures Coherent(after) && Genuine(after, items)
    ensures Run(b, picks, deal) == Run(after, picks[1..], deal)
    ensures Remaining(b) >= 1
    ensures Remaining(b) > 1 ==> after.winner.None? && Remaining(after) == Remaining(b) - 1
    ensures Remaining(b) == 1 ==> after.winner.Some? && after.winner.value in items
  {
    var chosen := if picks[0] then b.pair.0 else b.pair.1;
    var draws := deal(b.nextRound + [chosen]);
    assert Shufflable(b, draws);
    ChoseProgress(b, chosen, draws);
    ChoseKeepsGenuine(b, chosen, draws, items);
    after := Chose(b, chosen, draws);
    RunUnfold(b, picks, deal);
  }

  /** From an undecided coherent state, a winner shows exactly after
      `Remaining` presses, and it is one of the items. */
  lemma {:induction false} RunDecides(b: Board, picks: seq<bool>, deal: seq<string> -> seq<int>, items: seq<string>)
    requires Coherent(b) && Dealer(deal) && Genuine(b, items)
    requires b.winner.None? && |picks| <= Remaining(b)
    ensures Coherent(Run(b, picks, deal))
    ensures Run(b, picks, deal).winner.Some? <==> |picks| == Remaining(b)
    ensures Run(b, picks, deal).winner.Some? ==> Run(b, picks, deal).winner.value in items
    decreases |picks|
  {
    if picks == [] {
      assert Run(b, picks, deal) == b;
    } else {
      var after := RunStep(b, picks, deal, items);
      if Remaining(b) > 1 {
        RunDecides(after, picks[1..], deal, items);
      } else {
        assert picks[1..] == [];
      }
    }
  }

  /** A whole tournament over `2^k >= 2` items: `|items| - 1` presses on the
      offered buttons end with a champion, who is one of the items. */
  lemma TournamentDecides(items: seq<string>, draws: seq<int>, picks: seq<bool>, deal: seq<string> -> seq<int>)
    requires IsPow2(|items|) && |items| >= 2 && ValidDraws(draws, |items|) && Dealer(deal)
    requires |picks| <= |items| - 1
    ensures var b := Run(Opening(Shuffled(items, draws)), picks, deal);
      && (b.winner.Some? <==> |picks| == |items| - 1)
      && (b.winner.Some? ==> b.winner.value in items)
  {
    var s := Shuffled(items, draws);
    ShuffledPermutes(items, draws);
    OpeningCoherent(s);
    assert multiset(Contenders(Opening(s))) == multiset(items);
    forall x | x in s ensures x in items {
      InSub(x, s, items);
    }
    RunDecides(Opening(s), picks, deal, items);
  }

  // ---------------------------------------------------------------------------
  // The component.

  class Tournament {
    /** The `items` prop. */
    const items: seq<string>
    var currentRound: seq<string>
    var nextRound: seq<string>
    var pair: (string, string)
    var index: int
    var roundSize: int
    var winner: Option<string>

    function State(): Board
      reads this
    {
      Board(currentRound, nextRound, pair, index, roundSize, winner)
    }

    ghost predicate Valid()
      reads this
    {
      IsPow2(|items|) && |items| >= 2 && Coherent(State())
    }

    /** The component's first render (lines 66-77): a shuffle of the items,
        the first two on offer, no winner. */
    constructor (items: seq<string>, draws: seq<int>)
      requires IsPow2(|items|) && |items| >= 2 && ValidDraws(draws, |items|)
      ensures this.items == items && Valid()
      ensures State() == Opening(Shuffled(items, draws))
    {
      var initial := Shuffle(items, draws);
      this.items := items;
      currentRound := initial;
      nextRound := [];
      pair := (initial[0], initial[1]);
      index := 2;
      roundSize := |initial|;
      winner := None;
      new;
      OpeningCoherent(initial);
    }

    /** `restart` (lines 80-88): a new shuffle of the items, the first two on
        offer, no winner, whatever the state was. */
    method Restart(draws: seq<int>)
      requires Valid() && ValidDraws(draws, |items|)
      modifies this
      ensures Valid()
      ensures State() == Opening(Shuffled(items, draws))
      ensures multiset(currentRound) == multiset(items)
    {
      var s := Shuffle(items, draws);
      currentRound := s;
      nextRound := [];
      pair := (s[0], s[1]);
      index := 2;
      roundSize := |s|;
      winner := None;
      OpeningCoherent(s);
      ShuffledPermutes(items, draws);
    }

    /** `choose(chosen)` (lines 90-114), `draws` standing in for the random
        numbers of the shuffle at a round's end. */
    method Choose(chosen: string, draws: seq<int>)
      requires Valid() && Shufflable(State(), draws)
      modifies this
      ensures Valid()
      ensures State() == Chose(old(State()), chosen, draws)
      ensures Decided(old(State())) ==> State() == old(State())
      ensures !Decided(old(State())) && old(index) < old(|currentRound|) ==>
        && nextRound == old(nextRound) + [chosen] && currentRound == old(currentRound)
        && pair == (old(currentRound)[old(index)], old(currentRound)[old(index) + 1])
        && index == old(index) + 2 && roundSize == old(roundSize) && winner == old(winner)
      ensures !Decided(old(State())) && old(index) >= old(|currentRound|) && old(nextRound) == [] ==>
        State() == old(State()).(winner := Some(chosen))
      ensures !Decided(old(State())) && old(index) >= old(|currentRound|) && old(nextRound) != [] ==>
        && multiset(currentRound) == multiset(old(nextRound) + [chosen])
        && nextRound == [] && index == 2 && roundSize == |currentRound| && winner == old(winner)
        && pair == (currentRound[0], currentRound[1])
    {
      ghost var b := State();
      ChoseKeepsCoherent(b, chosen, draws);
      ChoseProgress(b, chosen, draws);
      if winner.Some? && winner.value != "" {
        return;
      }
      var updatedNext := nextRound + [chosen];
      if index < |currentRound| {
        nextRound := updatedNext;
        pair := (currentRound[index], currentRound[index + 1]);
        index := index + 2;
        return;
      }
      var shuffledWinners := Shuffle(updatedNext, draws);
      ShuffledPermutes(updatedNext, draws);
      if |shuffledWinners| == 1 {
        winner := Some(shuffledWinners[0]);
        return;
      }
      currentRound := shuffledWinners;
      nextRound := [];
      pair := (shuffledWinners[0], shuffledWinners[1]);
      index := 2;
      roundSize := |shuffledWinners|;
    }
  }
}
