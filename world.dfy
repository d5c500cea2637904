/**
 * The game world of src/main.rs without the engine: the button entities,
 * the `GeneralInput` resource and the live flash messages, with one method
 * per system and the fixed per-frame order `main` registers.
 */
module Game {
  import opened Wrappers
  import opened Egui
  import opened Flash
  import opened GameButton

  /**
   * What the host supplies for one frame: the time since start-up, the
   * frame's duration, whether any pointer button was pressed this frame,
   * and the indices of the entities whose widget egui reports the pointer
   * down on.
   */
  datatype FrameInput = FrameInput(now: real, delta: real, anyPressed: bool, downOn: set<nat>)

  class World {
    var entities: seq<Entity>
    var general: GeneralInput
    var messages: seq<FlashMessage>

    /** The resource starts at zero clicks and catches; the entities are those the level spawns. */
    constructor (spawned: seq<Entity>)
      ensures entities == spawned && general == GeneralInput(0, 0) && messages == []
    {
      entities := spawned;
      general := GeneralInput(0, 0);
      messages := [];
    }

    /** Every mover's waypoint index is in range, so `button_move` does not panic. */
    predicate MoversInRange()
      reads this
    {
      forall i :: 0 <= i < |entities| ==> MoverInRange(entities[i])
    }

    /** `reset_input`: every click flag cleared, both counters zero, nothing else touched. */
    method ResetInput()
      modifies this
      ensures |entities| == |old(entities)|
      ensures forall i :: 0 <= i < |entities| ==> entities[i] == ResetEntity(old(entities)[i])
      ensures forall i :: 0 <= i < |entities| && entities[i].input.Some? ==> !entities[i].input.value.clickedOnFrame
      ensures general == GeneralInput(0, 0)
      ensures messages == old(messages)
    {
      var es := entities;
      var i := 0;
      while i < |es|
        invariant entities == old(entities) && general == old(general) && messages == old(messages)
        invariant 0 <= i <= |es| == |entities|
        invariant forall j :: 0 <= j < i ==> es[j] == ResetEntity(entities[j])
        invariant forall j :: i <= j < |es| ==> es[j] == entities[j]
      {
        if es[i].input.Some? {
          es := es[i := es[i].(input := Some(UserInput(false)))];
        }
        i := i + 1;
      }
      entities := es;
      general := general.(catched := 0);
      general := general.(clicks := 0);
    }

    /**
     * `display_buttons` without the drawing: each entity that catches the
     * press gets its flag set and adds one to `catched`; `clicks` becomes 1
     * when any press happened.
     */
    method DisplayButtons(downOn: set<nat>, anyPressed: bool)
      modifies this
      ensures |entities| == |old(entities)|
      ensures forall i :: 0 <= i < |entities| ==>
        entities[i] == DisplayEntity(old(entities)[i], Catches(old(entities)[i], i, downOn, anyPressed))
      ensures general.catched == old(general.catched) + CountCatches(old(entities), downOn, anyPressed, |old(entities)|)
      ensures general.clicks == if anyPressed then 1 else old(general.clicks)
      ensures messages == old(messages)
    {
      var es, catched := entities, general.catched;
      var i := 0;
      while i < |es|
        invariant entities == old(entities) && general == old(general) && messages == old(messages)
        invariant 0 <= i <= |es| == |entities|
        invariant forall j :: 0 <= j < i ==> es[j] == DisplayEntity(entities[j], Catches(entities[j], j, downOn, anyPressed))
        invariant forall j :: i <= j < |es| ==> es[j] == entities[j]
        invariant catched == general.catched + CountCatches(entities, downOn, anyPressed, i)
      {
        var e := es[i];
        if e.info.Some? && e.input.Some? {
          // A visible button is drawn as a button; a hidden one as a blank label that takes no press.
          var pressable := e.info.value.visible;
          if pressable && i in downOn && anyPressed {
            es := es[i := e.(input := Some(UserInput(true)))];
            catched := catched + 1;
          }
        }
        i := i + 1;
      }
      entities := es;
      general := general.(catched := catched);
      if anyPressed {
        general := general.(clicks := 1);
      }
    }

    /** `flash_message` without the drawing: the expired messages are despawned. */
    method FlashMessages(now: real)
      modifies this
      ensures messages == Unexpired(old(messages), now)
      ensures entities == old(entities) && general == old(general)
    {
      var msgs, kept := messages, [];
      var i := 0;
      while i < |msgs|
        invariant 0 <= i <= |msgs|
        invariant messages == old(messages) && entities == old(entities) && general == old(general)
        invariant kept == Unexpired(msgs[..i], now)
      {
        var m := msgs[i];
        assert msgs[..i + 1] == msgs[..i] + [m];
        UnexpiredAppend(msgs[..i], [m], now);
        if !(m.timeExpire <= now) {
          kept := kept + [m];
        }
        i := i + 1;
      }
      assert msgs[..i] == msgs;
      messages := kept;
    }

    /**
     * `button_letters` at time `now`: each letter button is updated as
     * `LettersEntity` says, and on a missed press one "ILLUSION" message is
     * spawned per letter button.
     */
    method ButtonLetters(now: real)
      modifies this
      ensures |entities| == |old(entities)|
      ensures forall i :: 0 <= i < |entities| ==> entities[i] == LettersEntity(old(entities)[i], general)
      ensures general == old(general)
      ensures |messages| == |old(messages)| + if Missed(general) then LetterCount(old(entities), |old(entities)|) else 0
      ensures messages[..|old(messages)|] == old(messages)
      ensures forall j :: |old(messages)| <= j < |messages| ==> messages[j] == Illusion(now)
    {
      var es, spawned, gi := entities, [], general;
      var i := 0;
      while i < |es|
        invariant entities == old(entities) && general == old(general) && messages == old(messages)
        invariant 0 <= i <= |es| == |entities|
        invariant forall j :: 0 <= j < i ==> es[j] == LettersEntity(entities[j], gi)
        invariant forall j :: i <= j < |es| ==> es[j] == entities[j]
        invariant |spawned| == if Missed(gi) then LetterCount(entities, i) else 0
        invariant forall j :: 0 <= j < |spawned| ==> spawned[j] == Illusion(now)
      {
        var e := es[i];
        if e.letters.Some? && e.input.Some? && e.info.Some? {
          if 0 < gi.clicks && 0 == gi.catched {
            spawned := spawned + [FlashMessage("ILLUSION", YELLOW, now + 0.5)];
          }
          es := es[i := LettersEntity(e, gi)];
        } else {
          assert LettersEntity(e, gi) == e;
        }
        i := i + 1;
      }
      assert (messages + spawned)[..|messages|] == messages;
      entities, messages := es, messages + spawned;
    }

    /** `button_blink` at time `now`: each blinking button steps as `BlinkEntity` says. */
    method ButtonBlink(now: real)
      modifies this
      ensures |entities| == |old(entities)|
      ensures forall i :: 0 <= i < |entities| ==> entities[i] == BlinkEntity(old(entities)[i], now)
      ensures general == old(general) && messages == old(messages)
    {
      var es := entities;
      var i := 0;
      while i < |es|
        invariant entities == old(entities) && general == old(general) && messages == old(messages)
        invariant 0 <= i <= |es| == |entities|
        invariant forall j :: 0 <= j < i ==> es[j] == BlinkEntity(entities[j], now)
        invariant forall j :: i <= j < |es| ==> es[j] == entities[j]
      {
        var e := es[i];
        if e.blinking.Some? && e.blinkState.Some? && e.info.Some? {
          var hidden := e.blinking.value.hidden;
          match e.blinkState.value
          case Visible(v) =>
            if v <= now {
              es := es[i := e.(blinkState := Some(Hidden(now + hidden)), info := Some(e.info.value.(visible := false)))];
            }
          case Hidden(h) =>
            if h <= now {
              es := es[i := e.(blinkState := Some(Visible(now + hidden)), info := Some(e.info.value.(visible := true)))];
            }
        }
        i := i + 1;
      }
      entities := es;
    }

    /**
     * `button_move` with frame duration `delta`: each mover steps as
     * `MoveEntity` says, and every waypoint index stays in range.
     */
    method ButtonMove(delta: real, len: Length)
      requires IsLength(len) && MoversInRange()
      modifies this
      ensures MoversInRange()
      ensures |entities| == |old(entities)|
      ensures forall i :: 0 <= i < |entities| ==> entities[i] == MoveEntity(old(entities)[i], delta, len)
      ensures general == old(general) && messages == old(messages)
    {
      var es := entities;
      var i := 0;
      while i < |es|
        invariant entities == old(entities) && general == old(general) && messages == old(messages)
        invariant 0 <= i <= |es| == |entities|
        invariant forall j :: 0 <= j < i ==> es[j] == MoveEntity(entities[j], delta, len)
        invariant forall j :: i <= j < |es| ==> es[j] == entities[j]
        invariant forall j :: 0 <= j < |es| ==> MoverInRange(es[j])
      {
        var e := es[i];
        es := es[i := MoveEntity(e, delta, len)];
        i := i + 1;
      }
      entities := es;
    }

    /**
     * One frame in the order `main` registers the systems: `reset_input`
     * (PreUpdate); `display_buttons` and `flash_message` (Update); then
     * `button_letters`, `button_blink` and `button_move` (PostUpdate).
     * Because the flags are cleared first, a button is clicked this frame
     * exactly when it catches the press, `catched` counts those buttons, and
     * a miss (press, but nothing caught) never coincides with a click.
     */
    method Frame(input: FrameInput, len: Length)
      requires IsLength(len) && MoversInRange()
      modifies this
      ensures MoversInRange()
      ensures |entities| == |old(entities)|
      ensures general.clicks == if input.anyPressed then 1 else 0
      ensures general.catched == CountCatches(old(entities), input.downOn, input.anyPressed, |old(entities)|)
      ensures general.catched == CountClicked(entities, |entities|)
      ensures forall i :: 0 <= i < |entities| ==> (Clicked(entities[i]) <==> Catches(old(entities)[i], i, input.downOn, input.anyPressed))
      ensures Missed(general) <==>
        input.anyPressed && forall i :: 0 <= i < |entities| ==> !Catches(old(entities)[i], i, input.downOn, input.anyPressed)
      ensures forall i :: 0 <= i < |entities| ==>
        entities[i] == EntityFrame(old(entities)[i], Catches(old(entities)[i], i, input.downOn, input.anyPressed), general, input.now, input.delta, len)
      ensures
        var live := Unexpired(old(messages), input.now);
        && |messages| == |live| + (if Missed(general) then LetterCount(old(entities), |old(entities)|) else 0)
        && messages[..|live|] == live
        && forall j :: |live| <= j < |messages| ==> messages[j] == Illusion(input.now)
    {
      ghost var start := entities;
      ResetInput();
      ghost var reset := entities;
      CountCatchesSameButtons(start, reset, input.downOn, input.anyPressed, |start|);
      DisplayButtons(input.downOn, input.anyPressed);
      ghost var displayed := entities;
      CountCatchesZero(start, input.downOn, input.anyPressed, |start|);
      LetterCountSameQuery(start, displayed, |start|);
      FlashMessages(input.now);
      ButtonLetters(input.now);
      ButtonBlink(input.now);
      ghost var blinked := entities;
      forall i | 0 <= i < |blinked|
        ensures MoverInRange(blinked[i])
      {
        assert MoverInRange(start[i]);
      }
      ButtonMove(input.delta, len);
      forall i | 0 <= i < |entities|
        ensures entities[i] == EntityFrame(start[i], Catches(start[i], i, input.downOn, input.anyPressed), general, input.now, input.delta, len)
        ensures Clicked(entities[i]) <==> Catches(start[i], i, input.downOn, input.anyPressed)
      {
        assert reset[i] == ResetEntity(start[i]);
        assert Catches(reset[i], i, input.downOn, input.anyPressed) == Catches(start[i], i, input.downOn, input.anyPressed);
      }
      CountClickedIsCountCatches(start, entities, input.downOn, input.anyPressed, |start|);
    }
  }

  /**
   * One entity through one frame: flag cleared, the press recorded when
   * `caught`, then the letter, blink and move steps with the frame's
   * counters `gi`.
   */
  function EntityFrame(e: Entity, caught: bool, gi: GeneralInput, now: real, delta: real, len: Length): (r: Entity)
    requires IsLength(len) && MoverInRange(e) && (caught ==> e.input.Some?)
    ensures MoverInRange(r)
    ensures r.input.Some? <==> e.input.Some?
    ensures r.input.Some? ==> r.input.value.clickedOnFrame == caught
  {
    MoveEntity(BlinkEntity(LettersEntity(DisplayEntity(ResetEntity(e), caught), gi), now), delta, len)
  }

  /**
   * What a frame does to a letter button: one that caught the press (which
   * rules out a miss) moves its cursor on by one and shows the character
   * there; on a miss it shows the first character with the cursor at 0;
   * otherwise cursor and text are kept. The text shown is then at most one
   * character long.
   */
  lemma EntityFrameLetters(e: Entity, caught: bool, gi: GeneralInput, now: real, delta: real, len: Length)
    requires IsLength(len) && MoverInRange(e) && InLettersQuery(e)
    requires caught ==> !Missed(gi)
    ensures
      var r, l := EntityFrame(e, caught, gi, now, delta, len), e.letters.value;
      && InLettersQuery(r)
      && r.letters.value.fullString == l.fullString
      && (caught ==>
            r.letters.value.currentIndex == l.currentIndex + 1 && r.info.value.text == CharAt(l.fullString, l.currentIndex + 1))
      && (Missed(gi) ==> r.letters.value.currentIndex == 0 && r.info.value.text == CharAt(l.fullString, 0))
      && (!caught && !Missed(gi) ==> r.letters == e.letters && r.info.value.text == e.info.value.text)
  {
    var d := DisplayEntity(ResetEntity(e), caught);
    LettersEntityEffect(d, gi);
  }
}
