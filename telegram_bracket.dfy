/**
  The Telegram bot's bracket (api/index.py): the `/start` handler, the
  `send_next_round` step and the button handler `handle_choice`.

  The user's session, `context.user_data` of the user who sent the update, is
  the class `Session` with the two entries the handlers use.  A missing entry reads as the empty list in the
  source (`get(..., [])`, `setdefault(..., [])`), so it is modelled as `[]`.
  The messages the handlers send are returned as a sequence of `Effect`s.
*/
module TelegramBracket {
  import opened Wrappers
  import opened Sequences
  import opened Shuffling

  /** The fixed catalogue the tournament is played over. */
  const DISHES: seq<string> := [
    "Pizza", "Burger", "Sushi", "Pasta",
    "Tacos", "Steak", "Salad", "Ramen",
    "Curry", "Sandwich", "Dumplings", "BBQ",
    "Ice Cream", "Cake", "Fries", "Waffles"
  ]

  /** The fixed notices the bot sends. */
  datatype Notice = Started | NextRound | NotEnough

  /** The text of each notice. */
  function NoticeText(n: Notice): string
  {
    match n
    case Started => "\U{1F37D} Tournament started!"
    case NextRound => "\U{27A1}\U{FE0F} Next round!"
    case NotEnough => "Not enough dishes left. Send /start to restart."
  }

  /** Every button's callback data starts with this tag. */
  const PickPrefix: string := "pick|"

  /** An inline keyboard button: the text shown and the data sent back when pressed. */
  datatype Button = Button(text: string, callbackData: string)

  /** What a handler asks the chat to show. */
  datatype Effect =
    | Notify(notice: Notice)
    | PresentChoice(first: Button, second: Button)
    | AnnounceWinner(item: string)

  /** The two lists of `user_data`: items still to be paired this round, and the
      winners of this round so far. */
  datatype Rounds = Rounds(current: seq<string>, next: seq<string>)

  /** The text of the message each effect sends; a choice carries its two
      buttons as the message's keyboard. */
  function EffectText(e: Effect): string
  {
    match e
    case Notify(n) => NoticeText(n)
    case PresentChoice(_, _) => "Choose your favourite:"
    case AnnounceWinner(item) => "\U{1F3C6} The winner is: " + item + " \U{1F389}"
  }

  /** The callback data of the button for `item`. */
  function Payload(item: string): string
  {
    PickPrefix + item
  }

  function ButtonFor(item: string): Button
  {
    Button(item, Payload(item))
  }

  /** The items a choice offers, in order; nothing for the other effects. */
  function Offered(e: Effect): seq<string>
  {
    if e.PresentChoice? then [e.first.text, e.second.text] else []
  }

  /** Python's `s.split(sep, 1)` when `sep` occurs: the text before the first
      `sep` and everything after it. */
  function SplitOnce(s: string, sep: char): (parts: Option<(string, string)>)
    ensures parts.None? <==> sep !in s
    ensures parts.Some? ==> s == parts.value.0 + [sep] + parts.value.1 && sep !in parts.value.0
  {
    if s == [] then None
    else if s[0] == sep then Some(([], s[1..]))
    else
      match SplitOnce(s[1..], sep)
      case None => None
      case Some((before, after)) => Some(([s[0]] + before, after))
  }

  /** The first `|` of a payload is the one that ends its tag. */
  lemma FirstBarEndsTag(data: string, before: string, after: string)
    requires PickPrefix <= data
    requires data == before + ['|'] + after && '|' !in before
    ensures before == PickPrefix[..4] && after == data[5..]
  {
    assert data[4] == '|';
    assert forall k :: 0 <= k < 4 ==> data[k] == PickPrefix[k] != '|';
    assert forall k :: 0 <= k < |before| ==> data[k] == before[k] != '|';
    assert data[|before|] == '|';
    assert |before| == 4;
    assert before == data[..4];
  }

  /** The item a button press names, or `None` when its data does not start
      with `pick|` (lines 63-67). */
  function DecodePick(data: string): (chosen: Option<string>)
    ensures chosen.Some? <==> PickPrefix <= data
    ensures chosen.Some? ==> data == Payload(chosen.value)
  {
    if !(PickPrefix <= data) then None
    else
      assert data[4] == '|';
      match SplitOnce(data, '|')
      case Some((before, after)) =>
        FirstBarEndsTag(data, before, after);
        assert data == PickPrefix + after;
        Some(after)
  }

  /** Decoding a button's data gives back exactly its item, even an item that
      itself contains `|`. */
  lemma PayloadRoundTrip(item: string)
    ensures DecodePick(ButtonFor(item).callbackData) == Some(item)
  {
    var chosen := DecodePick(Payload(item));
    assert PickPrefix <= Payload(item);
    assert Payload(item)[5..] == item && Payload(item)[5..] == chosen.value;
  }

  /** `send_next_round` (lines 38-57) on the two lists. */
  function Advance(r: Rounds): (Rounds, Effect)
  {
    if |r.current| == 1 then (r, AnnounceWinner(r.current[0]))
    else if |r.current| < 2 then (r, Notify(NotEnough))
    else (Rounds(r.current[2..], r.next), PresentChoice(ButtonFor(r.current[0]), ButtonFor(r.current[1])))
  }

  /** What `send_next_round` does: announce a lone item, report an empty round,
      or offer the first two items as buttons carrying their payloads and drop
      them from the round, which keeps the rest in order; only the last case
      changes the lists. */
  lemma AdvanceSpec(r: Rounds)
    ensures var (after, e) := Advance(r);
      && (e.AnnounceWinner? <==> |r.current| == 1)
      && (e.AnnounceWinner? ==> e.item == r.current[0])
      && (e.Notify? <==> r.current == [])
      && (e.Notify? ==> e.notice == NotEnough)
      && (!e.PresentChoice? ==> after == r)
      && (e.PresentChoice? ==> Offered(e) + after.current == r.current && after.next == r.next)
      && (e.PresentChoice? ==> e.first == ButtonFor(e.first.text) && e.second == ButtonFor(e.second.text))
  {
    if |r.current| >= 2 {
      assert [r.current[0], r.current[1]] + r.current[2..] == r.current;
    }
  }

  /** A decoded pick (lines 68-75): `chosen` joins the winners; an exhausted
      round is replaced by its winners, announced by one "Next round!"; then the
      bracket advances. */
  function Resolve(r: Rounds, chosen: string): (Rounds, seq<Effect>)
  {
    var appended := r.next + [chosen];
    if r.current == [] then
      var (after, e) := Advance(Rounds(appended, []));
      (after, [Notify(NextRound), e])
    else
      var (after, e) := Advance(Rounds(r.current, appended));
      (after, [e])
  }

  /** What a pick does: one "Next round!" exactly when the round was used up,
      then the step of `send_next_round` on the lists with `chosen` appended;
      the offered pair and the two lists together are the items that were
      waiting, plus `chosen` at the end; a winner is announced exactly when a
      lone leftover remains (the odd-round case) or the pick was the last one;
      "Not enough dishes" is never sent, since the pick is appended before the
      round is tested. */
  lemma ResolveSpec(r: Rounds, chosen: string)
    ensures var (after, effects) := Resolve(r, chosen);
      var last := effects[|effects| - 1];
      && |effects| >= 1
      && (r.current == [] ==>
            (|effects| == 2 && effects[0] == Notify(NextRound)
             && (after, last) == Advance(Rounds(r.next + [chosen], []))))
      && (r.current != [] ==>
            (|effects| == 1 && (after, last) == Advance(Rounds(r.current, r.next + [chosen]))))
      && Offered(last) + after.current + after.next
         == (if r.current == [] then r.next + [chosen] else r.current + r.next + [chosen])
      && (last.AnnounceWinner? <==> |r.current| == 1 || (r.current == [] && r.next == []))
      && (last.AnnounceWinner? ==> last.item == (if r.current == [] then chosen else r.current[0]))
      && Notify(NotEnough) !in effects
  {
    var appended := r.next + [chosen];
    if r.current == [] {
      AdvanceSpec(Rounds(appended, []));
      var (after, e) := Advance(Rounds(appended, []));
      if e.PresentChoice? {
        assert Offered(e) + after.current + after.next == appended;
      }
    } else {
      AdvanceSpec(Rounds(r.current, appended));
      var (after, e) := Advance(Rounds(r.current, appended));
      assert Offered(e) + after.current + after.next == r.current + appended;
    }
  }

  /** `context.user_data` of one user: the user who sent the update. */
  class Session {
    var currentRound: seq<string>
    var nextRound: seq<string>

    /** The session of a user before their first `/start`: no entries. */
    constructor ()
      ensures currentRound == [] && nextRound == []
    {
      currentRound := [];
      nextRound := [];
    }

    function State(): Rounds
      reads this
    {
      Rounds(currentRound, nextRound)
    }

    /** `/start` (lines 27-36): shuffle a copy of the catalogue, replace whatever
        the session held, announce the start and offer the first pair. */
    method Start(draws: seq<int>) returns (effects: seq<Effect>)
      requires ValidDraws(draws, |DISHES|)
      modifies this
      ensures |effects| == 2 && effects[0] == Notify(Started)
      ensures (State(), effects[1]) == Advance(Rounds(Shuffled(DISHES, draws), []))
      ensures effects[1].PresentChoice? && nextRound == []
      ensures Offered(effects[1]) + currentRound == Shuffled(DISHES, draws)
    {
      var dishes := Shuffle(DISHES, draws);
      currentRound := dishes;
      nextRound := [];
      var e := SendNextRound();
      effects := [Notify(Started), e];
      AdvanceSpec(Rounds(dishes, []));
    }

    /** `send_next_round` on the session's lists. */
    method SendNextRound() returns (effect: Effect)
      modifies this
      ensures (State(), effect) == Advance(old(State()))
    {
      var current := currentRound;
      if |current| == 1 {
        effect := AnnounceWinner(current[0]);
        return;
      }
      if |current| < 2 {
        effect := Notify(NotEnough);
        return;
      }
      var pair := current[..2];
      currentRound := current[2..];
      effect := PresentChoice(ButtonFor(pair[0]), ButtonFor(pair[1]));
    }

    /** `handle_choice` (lines 59-75) for a press whose callback data is `data`
        (`None` when the update carries none). */
    method HandleChoice(data: Option<string>) returns (effects: seq<Effect>)
      modifies this
      ensures var text := if data.Some? then data.value else "";
        match DecodePick(text)
        case None => effects == [] && State() == old(State())
        case Some(chosen) => (State(), effects) == Resolve(old(State()), chosen)
    {
      var text := if data.Some? then data.value else "";
      effects := [];
      if !(PickPrefix <= text) {
        assert DecodePick(text) == None;
        return;
      }
      var parts := SplitOnce(text, '|');
      assert text[4] == '|';
      var chosen := parts.value.1;
      FirstBarEndsTag(text, parts.value.0, chosen);
      assert DecodePick(text) == Some(chosen) by {
        assert text == Payload(DecodePick(text).value);
        assert text[5..] == DecodePick(text).value;
      }
      nextRound := nextRound + [chosen];
      if currentRound == [] {
        currentRound := nextRound;
        nextRound := [];
        effects := [Notify(NextRound)];
      }
      ghost var recorded := State();
      var e := SendNextRound();
      effects := effects + [e];
      ghost var expected := Resolve(old(State()), chosen);
      assert State() == expected.0 && effects == expected.1 by {
        if old(currentRound) == [] {
          assert recorded == Rounds(old(nextRound) + [chosen], []);
          assert effects == [Notify(NextRound), e];
        } else {
          assert recorded == Rounds(old(currentRound), old(nextRound) + [chosen]);
          assert effects == [e];
        }
      }
    }
  }
}
