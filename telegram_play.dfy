/**
  Whole tournaments of the Telegram bot: what happens when a user keeps
  pressing buttons, either one of the two just offered or one of an earlier
  keyboard (`Press`).  The session's handlers follow `Advance` and `Resolve`
  exactly (see `Session`), so these runs describe the bot's messages when it
  handles one update at a time.
*/
module TelegramPlay {
  import opened Sequences
  import opened Shuffling
  import opened TelegramBracket

  /** The items still in the running while `a` and `b` are on offer. */
  function Alive(r: Rounds, a: string, b: string): seq<string>
  {
    r.current + r.next + [a, b]
  }

  /** The size of the round being played: the pairs still to come, the pair on
      offer, and one pair for each winner so far. */
  function RoundSize(r: Rounds): int
  {
    |r.current| + 2 + 2 * |r.next|
  }

  /** Presses still needed before a winner can be known. */
  function Remaining(r: Rounds): int
  {
    |r.current| + |r.next| + 1
  }

  /** The shape of a well-seeded bracket: the round has a power-of-two size
      and the rest of it is made of whole pairs. */
  ghost predicate Shaped(r: Rounds)
  {
    IsPow2(RoundSize(r)) && |r.current| % 2 == 0
  }

  /** A shaped bracket with `a` and `b` on offer in which no item is in the
      running twice. */
  ghost predicate Live(r: Rounds, a: string, b: string)
  {
    Shaped(r) && Distinct(Alive(r, a, b))
  }

  /** A press in a chat: one of the two buttons just offered, or a button of an
      earlier keyboard, which the bot never removes, naming any item. */
  datatype Press = First | Second | Earlier(item: string)

  /** The item a press names while `a` and `b` are on offer. */
  function Pressed(p: Press, a: string, b: string): string
  {
    match p
    case First => a
    case Second => b
    case Earlier(item) => item
  }

  /** Every press is on the keyboard just sent. */
  predicate OnOffer(picks: seq<Press>)
  {
    forall k :: 0 <= k < |picks| ==> !picks[k].Earlier?
  }

  /** The number of winner announcements in a run of messages. */
  function Winners(t: seq<Effect>): nat
  {
    if t == [] then 0 else (if t[0].AnnounceWinner? then 1 else 0) + Winners(t[1..])
  }

  lemma {:induction false} WinnersAppend(s: seq<Effect>, t: seq<Effect>)
    ensures Winners(s + t) == Winners(s) + Winners(t)
  {
    if s == [] {
      assert s + t == t;
    } else {
      assert (s + t)[0] == s[0] && (s + t)[1..] == s[1..] + t;
      WinnersAppend(s[1..], t);
    }
  }

  /** The first press of a run on offer names an offered item, and the rest
      of the run is on offer too. */
  lemma OnOfferTail(picks: seq<Press>)
    requires OnOffer(picks) && picks != []
    ensures !picks[0].Earlier? && OnOffer(picks[1..])
  {
    assert picks[0] == picks[..1][0];
    forall k | 0 <= k < |picks[1..]| ensures !picks[1..][k].Earlier? {
      assert picks[1..][k] == picks[k + 1];
    }
  }

  /** The messages of a run in which press `k` is `picks[k]`.  The run stops as
      soon as a press is not answered by a new choice. */
  function Play(r: Rounds, a: string, b: string, picks: seq<Press>): seq<Effect>
    decreases |picks|
  {
    if picks == [] then []
    else
      var (after, effects) := Resolve(r, Pressed(picks[0], a, b));
      var last := effects[|effects| - 1];
      effects + (if last.PresentChoice? then Play(after, last.first.text, last.second.text, picks[1..]) else [])
  }

  /** The messages of a tournament over `items` in the order the shuffle left
      them: the opening step of `/start`, then the run of the presses. */
  function Transcript(items: seq<string>, picks: seq<Press>): seq<Effect>
  {
    var (r, e) := Advance(Rounds(items, []));
    [e] + (if e.PresentChoice? then Play(r, e.first.text, e.second.text, picks) else [])
  }

  /** The pair on offer, put back among the items it came from, with a pick
      of `a` or `b` in place of `chosen`: no item is gained. */
  lemma PairBack<T>(x: T, y: T, u: seq<T>, v: seq<T>, rest: seq<T>, chosen: T, a: T, b: T)
    requires [x, y] + u + v == rest + [chosen] && (chosen == a || chosen == b)
    ensures multiset(u + v + [x, y]) <= multiset(rest + [a, b])
  {
    calc {
      multiset(u + v + [x, y]);
    ==
      multiset([x, y] + u + v);
    ==
      multiset(rest) + multiset{chosen};
    <=
      multiset(rest) + multiset{a, b};
    ==
      multiset(rest + [a, b]);
    }
  }

  /** Moving the first pair to the back keeps the items. */
  lemma PairToBack<T>(s: seq<T>)
    requires |s| >= 2
    ensures multiset(s[2..] + [] + [s[0], s[1]]) == multiset(s)
  {
    calc {
      multiset(s[2..] + [] + [s[0], s[1]]);
    ==
      multiset(s[2..]) + multiset([s[0], s[1]]);
    == { assert s == [s[0], s[1]] + s[2..]; }
      multiset(s);
    }
  }

  /** The last element of `s + t` for a non-empty `t` is that of `t`. */
  lemma LastOfAppend<T>(s: seq<T>, t: seq<T>)
    requires t != []
    ensures (s + t)[|s + t| - 1] == t[|t| - 1]
  {
  }

  /** A press on `a` or `b` answered by a new choice keeps no item that was not
      in the running: the loser goes and nothing comes in. */
  lemma ResolveKeepsItems(r: Rounds, a: string, b: string, chosen: string)
    requires chosen == a || chosen == b
    ensures var (after, effects) := Resolve(r, chosen);
      var last := effects[|effects| - 1];
      last.PresentChoice? ==>
        multiset(Alive(after, last.first.text, last.second.text)) <= multiset(Alive(r, a, b))
  {
    ResolveSpec(r, chosen);
    var (after, effects) := Resolve(r, chosen);
    var last := effects[|effects| - 1];
    if last.PresentChoice? {
      var x, y := last.first.text, last.second.text;
      var rest := if r.current == [] then r.next else r.current + r.next;
      assert [x, y] + after.current + after.next == rest + [chosen] by {
        assert Offered(last) == [x, y];
      }
      PairBack(x, y, after.current, after.next, rest, chosen, a, b);
    }
  }

  /** A press on `a` or `b` that ends in an announcement names an item in the
      running. */
  lemma AnnouncedIsAlive(r: Rounds, a: string, b: string, chosen: string)
    requires chosen == a || chosen == b
    ensures var last := Resolve(r, chosen).1[|Resolve(r, chosen).1| - 1];
      last.AnnounceWinner? ==> last.item in Alive(r, a, b)
  {
    ResolveSpec(r, chosen);
    var k := |r.current| + |r.next|;
    assert Alive(r, a, b)[k] == a && Alive(r, a, b)[k + 1] == b;
    if r.current != [] {
      assert Alive(r, a, b)[0] == r.current[0];
    }
  }

  /** The last press of a tournament: both lists are empty, so the pick becomes a
      round of one and is announced after "Next round!". */
  lemma ResolveLast(r: Rounds, chosen: string)
    requires r.current == [] && r.next == []
    ensures Resolve(r, chosen).1 == [Notify(NextRound), AnnounceWinner(chosen)]
  {
    assert r.next + [chosen] == [chosen];
  }

  /** Any press but the last in a shaped bracket, whatever item it names, is
      answered by a new choice and announces nothing. */
  lemma ResolveOffers(r: Rounds, chosen: string)
    requires Shaped(r) && Remaining(r) != 1
    ensures var effects := Resolve(r, chosen).1;
      Winners(effects) == 0 && effects[|effects| - 1].PresentChoice?
  {
    ResolveSpec(r, chosen);
    var effects := Resolve(r, chosen).1;
    if r.current == [] {
      AdvanceSpec(Rounds(r.next + [chosen], []));
      assert |r.next + [chosen]| >= 2;
      assert effects[1].PresentChoice?;
      assert effects[1..][1..] == [];
      assert Winners(effects) == Winners(effects[1..]) == Winners(effects[1..][1..]);
    } else {
      AdvanceSpec(Rounds(r.current, r.next + [chosen]));
      assert |r.current| >= 2;
      assert effects[1..] == [];
    }
  }

  /** A press that ends a round which is not the last: the winners and the pick
      form a round of half the size, made of whole pairs, and the end is one
      press closer. */
  lemma RoundEndShape(r: Rounds, chosen: string)
    requires Shaped(r)
    requires r.current == [] && r.next != []
    ensures var (after, effects) := Resolve(r, chosen);
      var last := effects[|effects| - 1];
      && last.PresentChoice?
      && Shaped(after)
      && RoundSize(after) == RoundSize(r) / 2 && after.next == []
      && Remaining(after) == Remaining(r) - 1
  {
    var survivors := r.next + [chosen];
    HalfOfPow2(RoundSize(r));
    assert |survivors| == RoundSize(r) / 2 >= 2;
    ResolveSpec(r, chosen);
    AdvanceSpec(Rounds(survivors, []));
    var after := Resolve(r, chosen).0;
    assert |after.current| == |survivors| - 2 && after.next == [];
    FreshRoundShaped(after, |survivors|);
  }

  /** A press inside a round: the round keeps its size and stays made of whole
      pairs, and the end is one press closer. */
  lemma MidRoundShape(r: Rounds, chosen: string)
    requires Shaped(r)
    requires r.current != []
    ensures var (after, effects) := Resolve(r, chosen);
      var last := effects[|effects| - 1];
      && last.PresentChoice?
      && Shaped(after)
      && RoundSize(after) == RoundSize(r)
      && Remaining(after) == Remaining(r) - 1
  {
    ResolveSpec(r, chosen);
    AdvanceSpec(Rounds(r.current, r.next + [chosen]));
  }

  /** A press in a live bracket that is not its last leads to a new choice,
      announces nothing, keeps the bracket live, removes no item but a loser,
      duplicates nothing and brings the end one press closer. */
  lemma ResolveContinues(r: Rounds, a: string, b: string, chosen: string)
    requires Live(r, a, b) && (chosen == a || chosen == b) && Remaining(r) != 1
    ensures var (after, effects) := Resolve(r, chosen);
      var last := effects[|effects| - 1];
      && Winners(effects) == 0
      && last.PresentChoice?
      && Live(after, last.first.text, last.second.text)
      && Remaining(after) == Remaining(r) - 1
      && multiset(Alive(after, last.first.text, last.second.text)) <= multiset(Alive(r, a, b))
  {
    ResolveOffers(r, chosen);
    if r.current == [] {
      RoundEndShape(r, chosen);
    } else {
      MidRoundShape(r, chosen);
    }
    ResolveKeepsItems(r, a, b, chosen);
    var (after, effects) := Resolve(r, chosen);
    var last := effects[|effects| - 1];
    DistinctSub(Alive(r, a, b), Alive(after, last.first.text, last.second.text));
  }

  /** With one press left (both lists empty), any press ends the run with
      "Next round!" and one announcement, naming the pressed item. */
  lemma PlayLastPress(r: Rounds, a: string, b: string, picks: seq<Press>)
    requires Remaining(r) == 1 && picks != []
    ensures var t := Play(r, a, b, picks);
      && t == [Notify(NextRound), AnnounceWinner(Pressed(picks[0], a, b))]
      && Winners(t) == 1
  {
    var chosen := Pressed(picks[0], a, b);
    ResolveLast(r, chosen);
    var t := [Notify(NextRound), AnnounceWinner(chosen)];
    assert t[1..] == [AnnounceWinner(chosen)] && t[1..][1..] == [];
    assert Winners(t[1..]) == 1 + Winners(t[1..][1..]) == 1;
  }

  /** One press, on any button, of a shaped bracket that is not its last: the
      messages it sends, which announce nothing, followed by the run from the
      new choice, which is shaped and one press closer to the end. */
  lemma PlayStep(r: Rounds, a: string, b: string, picks: seq<Press>)
      returns (after: Rounds, x: string, y: string, effects: seq<Effect>)
    requires Shaped(r) && picks != [] && Remaining(r) != 1
    ensures Play(r, a, b, picks) == effects + Play(after, x, y, picks[1..])
    ensures effects != [] && Winners(effects) == 0
    ensures Shaped(after) && Remaining(after) == Remaining(r) - 1
  {
    var chosen := Pressed(picks[0], a, b);
    ResolveOffers(r, chosen);
    if r.current == [] {
      RoundEndShape(r, chosen);
    } else {
      MidRoundShape(r, chosen);
    }
    after, effects := Resolve(r, chosen).0, Resolve(r, chosen).1;
    var last := effects[|effects| - 1];
    x, y := last.first.text, last.second.text;
  }

  /** From a shaped bracket, exactly `Remaining(r)` presses produce exactly one
      winner announcement, as the last message; fewer presses produce none.
      This holds whichever buttons are pressed, earlier keyboards included:
      the round sizes do not depend on what is picked. */
  lemma {:induction false} PlayTerminates(r: Rounds, a: string, b: string, picks: seq<Press>)
    requires Shaped(r) && |picks| <= Remaining(r)
    ensures var t := Play(r, a, b, picks);
      && Winners(t) == (if |picks| == Remaining(r) then 1 else 0)
      && (|picks| == Remaining(r) ==> t != [] && t[|t| - 1].AnnounceWinner?)
    decreases |picks|
  {
    if picks != [] {
      if Remaining(r) == 1 {
        PlayLastPress(r, a, b, picks);
      } else {
        var after, x, y, effects := PlayStep(r, a, b, picks);
        var rest := Play(after, x, y, picks[1..]);
        PlayTerminates(after, x, y, picks[1..]);
        WinnersAppend(effects, rest);
        if |picks| == Remaining(r) {
          LastOfAppend(effects, rest);
        }
      }
    }
  }

  /** An item announced after a press answered by a new choice, that was in
      the running at that choice, was in the running before the press. */
  lemma NamesCarryBack(r: Rounds, a: string, b: string, chosen: string, rest: seq<Effect>)
    requires chosen == a || chosen == b
    requires var effects := Resolve(r, chosen).1;
      effects[|effects| - 1].PresentChoice?
    requires rest != [] && rest[|rest| - 1].AnnounceWinner?
    requires var (after, effects) := Resolve(r, chosen);
      var last := effects[|effects| - 1];
      rest[|rest| - 1].item in Alive(after, last.first.text, last.second.text)
    ensures rest[|rest| - 1].item in Alive(r, a, b)
  {
    var (after, effects) := Resolve(r, chosen);
    var last := effects[|effects| - 1];
    ResolveKeepsItems(r, a, b, chosen);
    InSub(rest[|rest| - 1].item, Alive(after, last.first.text, last.second.text), Alive(r, a, b));
  }

  /** Whichever offered button is pressed, a run that ends in an announcement
      names an item that was in the running: no item comes from nowhere. */
  lemma {:induction false} PlayNamesAlive(r: Rounds, a: string, b: string, picks: seq<Press>)
    requires OnOffer(picks)
    ensures var t := Play(r, a, b, picks);
      t != [] && t[|t| - 1].AnnounceWinner? ==> t[|t| - 1].item in Alive(r, a, b)
    decreases |picks|
  {
    if picks != [] {
      OnOfferTail(picks);
      var chosen := Pressed(picks[0], a, b);
      var (after, effects) := Resolve(r, chosen);
      var last := effects[|effects| - 1];
      if last.PresentChoice? {
        var x, y := last.first.text, last.second.text;
        var rest := Play(after, x, y, picks[1..]);
        assert Play(r, a, b, picks) == effects + rest;
        PlayNamesAlive(after, x, y, picks[1..]);
        if rest != [] {
          LastOfAppend(effects, rest);
          if rest[|rest| - 1].AnnounceWinner? {
            NamesCarryBack(r, a, b, chosen, rest);
          }
        }
      } else {
        AnnouncedIsAlive(r, a, b, chosen);
      }
    }
  }

  /** A tournament over at least two items opens with its first pair. */
  lemma TranscriptOpens(items: seq<string>, picks: seq<Press>)
    requires |items| >= 2
    ensures Transcript(items, picks)
         == [PresentChoice(ButtonFor(items[0]), ButtonFor(items[1]))]
            + Play(Rounds(items[2..], []), items[0], items[1], picks)
  {
  }

  /** A round of `n - 2` items still to be paired, with a pair on offer and no
      winners yet, is shaped when `n` is a power of two. */
  lemma FreshRoundShaped(r: Rounds, n: int)
    requires IsPow2(n) && n >= 2 && |r.current| == n - 2 && r.next == []
    ensures Shaped(r)
  {
    HalfOfPow2(n);
    assert RoundSize(r) == n;
  }

  /** The state after the opening pair of `2^k >= 2` items is shaped, holds
      exactly the items and has `2^k - 1` presses to go. */
  lemma OpeningShaped(items: seq<string>)
    requires IsPow2(|items|) && |items| >= 2
    ensures var r := Rounds(items[2..], []);
      && Shaped(r) && Remaining(r) == |items| - 1
      && multiset(Alive(r, items[0], items[1])) == multiset(items)
  {
    var r := Rounds(items[2..], []);
    FreshRoundShaped(r, |items|);
    PairToBack(items);
    assert Alive(r, items[0], items[1]) == items[2..] + [] + [items[0], items[1]];
  }

  /** Over distinct items, that state is live as well: no item is in the
      running twice. */
  lemma OpeningLive(items: seq<string>)
    requires IsPow2(|items|) && |items| >= 2 && Distinct(items)
    ensures Live(Rounds(items[2..], []), items[0], items[1])
  {
    OpeningShaped(items);
    DistinctSub(items, Alive(Rounds(items[2..], []), items[0], items[1]));
  }

  /** The run of a tournament over at least two items is the run from its
      opening pair. */
  lemma PairsTerminate(items: seq<string>, picks: seq<Press>)
    requires IsPow2(|items|) && |items| >= 2 && |picks| <= |items| - 1
    ensures var t := Transcript(items, picks);
      && Winners(t) == (if |picks| == |items| - 1 then 1 else 0)
      && (|picks| == |items| - 1 ==> t[|t| - 1].AnnounceWinner?)
      && (|picks| == |items| - 1 && OnOffer(picks) ==> t[|t| - 1].item in items)
  {
    var x, y := items[0], items[1];
    var r := Rounds(items[2..], []);
    TranscriptOpens(items, picks);
    OpeningShaped(items);
    PlayTerminates(r, x, y, picks);
    var rest := Play(r, x, y, picks);
    var first := PresentChoice(ButtonFor(x), ButtonFor(y));
    WinnersAppend([first], rest);
    assert Winners([first]) == 0 by { assert [first][1..] == []; }
    if |picks| == |items| - 1 {
      LastOfAppend([first], rest);
      if OnOffer(picks) {
        PlayNamesAlive(r, x, y, picks);
        InSub(rest[|rest| - 1].item, Alive(r, x, y), items);
      }
    }
  }

  /** A tournament over `2^k` items: `2^k - 1` presses end in exactly one
      winner announcement, the last message; fewer presses announce nothing.
      When every press is on one of the two items just offered, the winner is
      one of the items. */
  lemma BracketTerminates(items: seq<string>, picks: seq<Press>)
    requires IsPow2(|items|) && |picks| <= |items| - 1
    ensures var t := Transcript(items, picks);
      && Winners(t) == (if |picks| == |items| - 1 then 1 else 0)
      && (|picks| == |items| - 1 ==> t[|t| - 1].AnnounceWinner?)
      && (|picks| == |items| - 1 && OnOffer(picks) ==> t[|t| - 1].item in items)
  {
    if |items| == 1 {
      var only := AnnounceWinner(items[0]);
      assert picks == [] && items == [items[0]];
      SingleItem(items[0]);
      assert Winners([only]) == 1 by { assert [only][1..] == []; }
    } else {
      PairsTerminate(items, picks);
    }
  }

  /** The catalogue has no repeated dish. */
  lemma DishesDistinct()
    ensures Distinct(DISHES) && IsPow2(|DISHES|)
  {
    assert |DISHES| == 16 && IsPow2(2) && IsPow2(4) && IsPow2(8);
    forall i, j | 0 <= i < j < |DISHES| ensures DISHES[i] != DISHES[j] {
      assert DISHES[i][0] != DISHES[j][0] || DISHES[i][2] != DISHES[j][2];
    }
    DistinctAtIsDistinct(DISHES);
  }

  /** The bot's own tournament: after `/start`, fifteen presses end in exactly
      one winner announcement; when they are on offered dishes, it names a
      dish, and the bracket never holds a dish twice at its start. */
  lemma DishesTournament(draws: seq<int>, picks: seq<Press>)
    requires ValidDraws(draws, |DISHES|) && |picks| == |DISHES| - 1
    ensures var t := Transcript(Shuffled(DISHES, draws), picks);
      && Winners(t) == 1 && t[|t| - 1].AnnounceWinner?
      && (OnOffer(picks) ==> t[|t| - 1].item in DISHES)
      && Distinct(Shuffled(DISHES, draws))
  {
    var dishes := Shuffled(DISHES, draws);
    DishesDistinct();
    ShuffledPermutes(DISHES, draws);
    DistinctSub(DISHES, dishes);
    BracketTerminates(dishes, picks);
    var t := Transcript(dishes, picks);
    if OnOffer(picks) {
      assert t[|t| - 1].item in multiset(DISHES);
    }
  }

  /** An empty list of items gets the "Not enough dishes" notice and no
      choice. */
  lemma EmptyItems(picks: seq<Press>)
    ensures Transcript([], picks) == [Notify(NotEnough)]
  {
  }

  /** A single item is announced at once, with no choice offered. */
  lemma SingleItem(x: string)
    ensures Transcript([x], []) == [AnnounceWinner(x)]
  {
  }

  /** The odd-round behaviour of the source: a lone item left in the round is
      announced as the winner although the winners of the round so far are
      still waiting in `next`. */
  lemma OddLeftoverWins(leftover: string, next: seq<string>, chosen: string)
    ensures Resolve(Rounds([leftover], next), chosen)
         == (Rounds([leftover], next + [chosen]), [AnnounceWinner(leftover)])
  {
  }

  /** The odd round in a whole run: once the round holds a lone item, the next
      press ends the run with that item announced, whatever was picked and
      whoever is waiting in `next`. */
  lemma OddLeftoverEndsRun(r: Rounds, a: string, b: string, picks: seq<Press>)
    requires |r.current| == 1 && picks != []
    ensures Play(r, a, b, picks) == [AnnounceWinner(r.current[0])]
  {
    OddLeftoverWins(r.current[0], r.next, Pressed(picks[0], a, b));
    assert [r.current[0]] == r.current;
  }

  /** A press on an earlier keyboard is a pick like any other: with `C` and `D`
      on offer, pressing the `A` of a past round again makes `A` a winner twice,
      and `C` and `D` are never offered again. */
  lemma EarlierPressRepeats()
    ensures Resolve(Rounds(["E", "F", "G", "H"], ["A"]), "A")
         == (Rounds(["G", "H"], ["A", "A"]), [PresentChoice(ButtonFor("E"), ButtonFor("F"))])
  {
    assert ["A"] + ["A"] == ["A", "A"];
    assert ["E", "F", "G", "H"][2..] == ["G", "H"];
  }
}
