/**
 * The `GameButton` module of src/main.rs: the components a button entity
 * may carry and, for each per-frame system, the update it applies to one
 * entity. A Bevy entity is a record with one optional slot per component;
 * a system's query matches an entity when every component it names is
 * present.
 */
module GameButton {
  import opened Wrappers
  import opened Egui
  import opened Flash

  /** The global input resource: presses this frame, and presses a button caught. */
  datatype GeneralInput = GeneralInput(clicks: nat, catched: nat)

  datatype ButtonInfo = ButtonInfo(text: string, position: Rect, visible: bool)

  datatype UserInput = UserInput(clickedOnFrame: bool)

  /** The reveal cursor into a secret string. */
  datatype LetterByLetter = LetterByLetter(currentIndex: nat, fullString: string)

  /** Blink durations. `displayed` is carried but no system reads it. */
  datatype Blinking = Blinking(displayed: real, hidden: real)

  /** The blink phase and the time at which it ends. */
  datatype BlinkState = Visible(until: real) | Hidden(until: real)

  datatype MovingDef = MovingDef(path: seq<Pos2>, speed: real)

  datatype MovingState = MovingState(targetIndex: nat)

  datatype Entity = Entity(
    info: Option<ButtonInfo>,
    input: Option<UserInput>,
    letters: Option<LetterByLetter>,
    blinking: Option<Blinking>,
    blinkState: Option<BlinkState>,
    movingDef: Option<MovingDef>,
    movingState: Option<MovingState>)

  // The queries of the systems.

  predicate InDisplayQuery(e: Entity) {
    e.info.Some? && e.input.Some?
  }

  predicate InLettersQuery(e: Entity) {
    e.letters.Some? && e.input.Some? && e.info.Some?
  }

  predicate InBlinkQuery(e: Entity) {
    e.blinking.Some? && e.blinkState.Some? && e.info.Some?
  }

  predicate InMoveQuery(e: Entity) {
    e.movingDef.Some? && e.movingState.Some? && e.info.Some?
  }

  // ---------------------------------------------------------------------
  // reset_input

  /** `reset_input` on one entity: its click flag is cleared, nothing else changes. */
  function ResetEntity(e: Entity): (r: Entity)
    ensures r.input.Some? <==> e.input.Some?
    ensures r.input.Some? ==> !r.input.value.clickedOnFrame
    ensures r == e.(input := r.input)
  {
    if e.input.Some? then e.(input := Some(UserInput(false))) else e
  }

  // ---------------------------------------------------------------------
  // display_buttons

  /**
   * The press of this frame lands on entity `e`, drawn as the `i`-th widget:
   * it is in the query, it is visible (a hidden button is drawn as a plain
   * label, which cannot be pressed), egui reports the pointer down on its
   * widget (`downOn`), and a press happened this frame.
   */
  predicate Catches(e: Entity, i: nat, downOn: set<nat>, anyPressed: bool) {
    InDisplayQuery(e) && e.info.value.visible && i in downOn && anyPressed
  }

  /** `display_buttons` on one entity: a caught press sets the flag, which is otherwise kept. */
  function DisplayEntity(e: Entity, caught: bool): (r: Entity)
    requires caught ==> e.input.Some?
    ensures r.input.Some? <==> e.input.Some?
    ensures r.input.Some? ==> (r.input.value.clickedOnFrame <==> e.input.value.clickedOnFrame || caught)
    ensures r == e.(input := r.input)
  {
    if caught then e.(input := Some(UserInput(true))) else e
  }

  /** How many of the first `n` entities catch the press: what `display_buttons` adds to `catched`. */
  function CountCatches(es: seq<Entity>, downOn: set<nat>, anyPressed: bool, n: nat): (k: nat)
    requires n <= |es|
    ensures k <= n
    ensures !anyPressed ==> k == 0
  {
    if n == 0 then 0
    else CountCatches(es, downOn, anyPressed, n - 1) + if Catches(es[n - 1], n - 1, downOn, anyPressed) then 1 else 0
  }

  /** `catched` stays 0 exactly when no entity caught the press. */
  lemma {:induction false} CountCatchesZero(es: seq<Entity>, downOn: set<nat>, anyPressed: bool, n: nat)
    requires n <= |es|
    ensures CountCatches(es, downOn, anyPressed, n) == 0 <==> forall i :: 0 <= i < n ==> !Catches(es[i], i, downOn, anyPressed)
  {
    if n > 0 {
      CountCatchesZero(es, downOn, anyPressed, n - 1);
    }
  }

  /**
   * The count depends only on what the hit test looks at: two worlds whose
   * entities agree on the button info and on having a `UserInput` count the
   * same. (Clearing the flags does not change it, for one.)
   */
  lemma {:induction false} CountCatchesSameButtons(es: seq<Entity>, fs: seq<Entity>, downOn: set<nat>, anyPressed: bool, n: nat)
    requires n <= |es| == |fs|
    requires forall i :: 0 <= i < n ==> es[i].info == fs[i].info && (es[i].input.Some? <==> fs[i].input.Some?)
    ensures CountCatches(es, downOn, anyPressed, n) == CountCatches(fs, downOn, anyPressed, n)
  {
    if n > 0 {
      CountCatchesSameButtons(es, fs, downOn, anyPressed, n - 1);
    }
  }

  /** The entity was clicked this frame. */
  predicate Clicked(e: Entity) {
    e.input.Some? && e.input.value.clickedOnFrame
  }

  /** How many of the first `n` entities are flagged as clicked. */
  function CountClicked(es: seq<Entity>, n: nat): (k: nat)
    requires n <= |es|
    ensures k <= n
  {
    if n == 0 then 0
    else CountClicked(es, n - 1) + if Clicked(es[n - 1]) then 1 else 0
  }

  /**
   * When exactly the entities that caught the press are flagged, the number
   * of flagged entities is the number `display_buttons` adds to `catched`.
   */
  lemma {:induction false} CountClickedIsCountCatches(es: seq<Entity>, fs: seq<Entity>, downOn: set<nat>, anyPressed: bool, n: nat)
    requires n <= |es| == |fs|
    requires forall i :: 0 <= i < n ==> (Clicked(fs[i]) <==> Catches(es[i], i, downOn, anyPressed))
    ensures CountClicked(fs, n) == CountCatches(es, downOn, anyPressed, n)
  {
    if n > 0 {
      CountClickedIsCountCatches(es, fs, downOn, anyPressed, n - 1);
    }
  }

  // ---------------------------------------------------------------------
  // button_letters

  /** A press happened this frame and no button caught it. */
  predicate Missed(gi: GeneralInput) {
    0 < gi.clicks && gi.catched == 0
  }

  /** `chars().take(n)`. */
  function Take(s: string, n: nat): (r: string)
    ensures |r| == if n < |s| then n else |s|
    ensures r <= s
  {
    if n < |s| then s[..n] else s
  }

  /** `chars().skip(n)`. */
  function Skip(s: string, n: nat): (r: string)
    ensures |r| == if n < |s| then |s| - n else 0
    ensures forall j :: 0 <= j < |r| ==> r[j] == s[n + j]
  {
    if n < |s| then s[n..] else []
  }

  /** `chars().skip(k).take(1)`: the character at `k` as a string, or "" at or past the end. */
  function CharAt(s: string, k: nat): (r: string)
    ensures |r| <= 1
    ensures k < |s| ==> r == [s[k]]
    ensures |s| <= k ==> r == []
  {
    Take(Skip(s, k), 1)
  }

  /** The message a missed press spawns, once per letter button. */
  function Illusion(now: real): (m: FlashMessage)
    ensures m.message == "ILLUSION" && m.color == YELLOW
    ensures m.timeExpire == now + 0.5
    ensures !Expired(m, now) && Expired(m, now + 0.5)
  {
    FlashMessage("ILLUSION", YELLOW, now + 0.5)
  }

  /**
   * `button_letters` on one entity, given the frame's input counters. Only
   * the reveal cursor and the text of a letter button change, and the text
   * it writes is at most one character long.
   */
  function LettersEntity(e: Entity, gi: GeneralInput): (r: Entity)
    ensures r == e.(letters := r.letters, info := r.info)
    ensures InLettersQuery(r) <==> InLettersQuery(e)
    ensures InLettersQuery(e) ==>
      && r.letters.value.fullString == e.letters.value.fullString
      && r.info.value == e.info.value.(text := r.info.value.text)
    ensures !InLettersQuery(e) || (!Missed(gi) && !e.input.value.clickedOnFrame) ==> r == e
    ensures InLettersQuery(e) && (Missed(gi) || e.input.value.clickedOnFrame) ==> |r.info.value.text| <= 1
  {
    if InLettersQuery(e) then
      var l0, info0 := e.letters.value, e.info.value;
      var l1 := if Missed(gi) then l0.(currentIndex := 0) else l0;
      var info1 := if Missed(gi) then info0.(text := Take(l0.fullString, 1)) else info0;
      var l2 := if e.input.value.clickedOnFrame then l1.(currentIndex := l1.currentIndex + 1) else l1;
      var info2 := if e.input.value.clickedOnFrame then info1.(text := Take(Skip(l1.fullString, l2.currentIndex), 1)) else info1;
      e.(letters := Some(l2), info := Some(info2))
    else
      e
  }

  /**
   * What `button_letters` does to a letter button. A miss rewinds the
   * cursor to 0 and shows the first character ("" for an empty string); a
   * click then moves the cursor on by one and shows the single character
   * there, "" once the cursor is at or past the end. The cursor itself is
   * not bounded by the string's length. The secret string, the rectangle
   * and the visibility are kept.
   */
  lemma LettersEntityEffect(e: Entity, gi: GeneralInput)
    requires InLettersQuery(e)
    ensures
      var r, l := LettersEntity(e, gi), e.letters.value;
      var l', clicked := r.letters.value, e.input.value.clickedOnFrame;
      && l'.fullString == l.fullString
      && r.info.value == e.info.value.(text := r.info.value.text)
      && (clicked && !Missed(gi) ==>
            l'.currentIndex == l.currentIndex + 1 && r.info.value.text == CharAt(l.fullString, l.currentIndex + 1))
      && (Missed(gi) && !clicked ==>
            l'.currentIndex == 0 && r.info.value.text == CharAt(l.fullString, 0))
      && (Missed(gi) && clicked ==>
            l'.currentIndex == 1 && r.info.value.text == CharAt(l.fullString, 1))
      && (!Missed(gi) && !clicked ==> r == e)
  {
  }

  /** How many of the first `n` entities are letter buttons. */
  function LetterCount(es: seq<Entity>, n: nat): (k: nat)
    requires n <= |es|
    ensures k <= n
  {
    if n == 0 then 0
    else LetterCount(es, n - 1) + if InLettersQuery(es[n - 1]) then 1 else 0
  }

  /** The number of letter buttons depends only on which entities match the query. */
  lemma {:induction false} LetterCountSameQuery(es: seq<Entity>, fs: seq<Entity>, n: nat)
    requires n <= |es| == |fs|
    requires forall i :: 0 <= i < n ==> (InLettersQuery(es[i]) <==> InLettersQuery(fs[i]))
    ensures LetterCount(es, n) == LetterCount(fs, n)
  {
    if n > 0 {
      LetterCountSameQuery(es, fs, n - 1);
    }
  }

  // ---------------------------------------------------------------------
  // button_blink

  /** The visibility flag agrees with the blink phase. */
  predicate VisibilityMatchesPhase(e: Entity) {
    InBlinkQuery(e) ==> (e.info.value.visible <==> e.blinkState.value.Visible?)
  }

  /**
   * `button_blink` on one entity at time `now`. A phase whose end time has
   * been reached flips to the other phase, which ends `hidden` seconds from
   * now (for both phases), and the visibility flag follows; otherwise
   * nothing changes.
   */
  function BlinkEntity(e: Entity, now: real): (r: Entity)
    ensures r == e.(blinkState := r.blinkState, info := r.info)
    ensures InBlinkQuery(r) <==> InBlinkQuery(e)
    ensures !InBlinkQuery(e) || now < e.blinkState.value.until ==> r == e
    ensures InBlinkQuery(e) ==> r.info.value == e.info.value.(visible := r.info.value.visible)
    ensures InBlinkQuery(e) && e.blinkState.value.Visible? && e.blinkState.value.until <= now ==>
      r.blinkState == Some(Hidden(now + e.blinking.value.hidden)) && !r.info.value.visible
    ensures InBlinkQuery(e) && e.blinkState.value.Hidden? && e.blinkState.value.until <= now ==>
      r.blinkState == Some(Visible(now + e.blinking.value.hidden)) && r.info.value.visible
  {
    if InBlinkQuery(e) then
      var hidden := e.blinking.value.hidden;
      match e.blinkState.value
      case Visible(v) =>
        if v <= now then e.(blinkState := Some(Hidden(now + hidden)), info := Some(e.info.value.(visible := false)))
        else e
      case Hidden(h) =>
        if h <= now then e.(blinkState := Some(Visible(now + hidden)), info := Some(e.info.value.(visible := true)))
        else e
    else
      e
  }

  /**
   * The visibility flag mirrors the phase after every blink step that
   * flipped the phase, and keeps mirroring it once it does.
   */
  lemma BlinkMatchesPhase(e: Entity, now: real)
    requires VisibilityMatchesPhase(e) || (InBlinkQuery(e) && e.blinkState.value.until <= now)
    ensures VisibilityMatchesPhase(BlinkEntity(e, now))
  {
  }

  /** With a positive duration, the new phase lies in the future, so one step flips at most once. */
  lemma BlinkNewPhaseInFuture(e: Entity, now: real)
    requires InBlinkQuery(e) && 0.0 < e.blinking.value.hidden
    ensures now < BlinkEntity(e, now).blinkState.value.until || BlinkEntity(e, now) == e
  {
  }

  /** `Blinking.displayed` is never read: changing it changes nothing but itself. */
  lemma BlinkIgnoresDisplayed(e: Entity, now: real, d: real)
    requires e.blinking.Some?
    ensures BlinkEntity(e.(blinking := Some(e.blinking.value.(displayed := d))), now)
         == BlinkEntity(e, now).(blinking := Some(e.blinking.value.(displayed := d)))
  {
  }

  /**
   * The button set up with `Visible(t + 2)` and `hidden` seconds: a step at
   * any time `t1` from `t + 2` on hides it until `t1 + hidden`, and a step at
   * any time from then on shows it again until `t2 + hidden`.
   */
  lemma BlinkCycle(e: Entity, t: real, t1: real, t2: real)
    requires InBlinkQuery(e) && e.blinkState.value == Visible(t + 2.0)
    requires t + 2.0 <= t1 && t1 + e.blinking.value.hidden <= t2
    ensures BlinkEntity(e, t1).blinkState == Some(Hidden(t1 + e.blinking.value.hidden))
    ensures !BlinkEntity(e, t1).info.value.visible
    ensures BlinkEntity(BlinkEntity(e, t1), t2).blinkState == Some(Visible(t2 + e.blinking.value.hidden))
    ensures BlinkEntity(BlinkEntity(e, t1), t2).info.value.visible
  {
  }

  // ---------------------------------------------------------------------
  // button_move / move_towards

  /**
   * `move_towards`: step from `current` towards `target` by `maxDistance`
   * along the straight line, landing exactly on the target when it is at
   * most that far away (or already reached).
   */
  function MoveTowards(current: Pos2, target: Pos2, maxDistance: real, len: Length): (r: Pos2)
    requires IsLength(len)
    ensures r == target <==> len(Sub(target, current)) <= maxDistance || len(Sub(target, current)) == 0.0
  {
    var a := Sub(target, current);
    var magnitude := len(a);
    if magnitude <= maxDistance || magnitude == 0.0 then
      target
    else
      var r := Translate(current, Scale(Div(a, magnitude), maxDistance));
      StepMissesTarget(current, target, maxDistance, magnitude);
      r
  }

  /** A step strictly shorter than a non-zero distance does not reach the target. */
  lemma StepMissesTarget(current: Pos2, target: Pos2, maxDistance: real, magnitude: real)
    requires magnitude != 0.0 && maxDistance < magnitude
    requires Sub(target, current) != ZERO
    ensures Translate(current, Scale(Div(Sub(target, current), magnitude), maxDistance)) != target
  {
    var a := Sub(target, current);
    var k := maxDistance / magnitude;
    assert k != 1.0;
    assert (a.x / magnitude) * maxDistance == a.x * k;
    assert (a.y / magnitude) * maxDistance == a.y * k;
    if a.x != 0.0 {
      assert a.x * k != a.x;
    } else {
      assert a.y * k != a.y;
    }
  }

  /** `def.path[state.target_index]` is defined: the source panics otherwise. */
  predicate MoverInRange(e: Entity) {
    InMoveQuery(e) ==> e.movingState.value.targetIndex < |e.movingDef.value.path|
  }

  /**
   * `button_move` on one entity with frame time `delta`: the rectangle's
   * corner moves towards the current waypoint by at most `speed * delta`,
   * its size is kept, and the waypoint index advances cyclically exactly
   * when the corner has landed on the waypoint.
   */
  function MoveEntity(e: Entity, delta: real, len: Length): (r: Entity)
    requires IsLength(len) && MoverInRange(e)
    ensures MoverInRange(r)
    ensures r == e.(info := r.info, movingState := r.movingState)
    ensures InMoveQuery(r) <==> InMoveQuery(e)
    ensures !InMoveQuery(e) ==> r == e
    ensures InMoveQuery(e) ==>
      var def, i, pos, pos' := e.movingDef.value, e.movingState.value.targetIndex, e.info.value.position, r.info.value.position;
      && r.info.value == e.info.value.(position := pos')
      && pos'.min == MoveTowards(pos.min, def.path[i], def.speed * delta, len)
      && Size(pos') == Size(pos)
      && (pos'.min == def.path[i] <==> len(Sub(def.path[i], pos.min)) <= def.speed * delta || len(Sub(def.path[i], pos.min)) == 0.0)
      && r.movingState.value.targetIndex == if pos'.min == def.path[i] then (i + 1) % |def.path| else i
  {
    if InMoveQuery(e) then
      var def, state, info := e.movingDef.value, e.movingState.value, e.info.value;
      var target := def.path[state.targetIndex];
      var newPos := MoveTowards(info.position.min, target, def.speed * delta, len);
      var info' := info.(position := FromMinSize(newPos, Size(info.position)));
      var state' := if newPos == target then state.(targetIndex := (state.targetIndex + 1) % |def.path|) else state;
      e.(info := Some(info'), movingState := Some(state'))
    else
      e
  }

  // ---------------------------------------------------------------------
  // Order within the PostUpdate stage

  /**
   * What `button_move` writes depends only on the mover components and the
   * rectangle: on an entity that agrees with `e` on those, it writes the
   * same rectangle and waypoint index.
   */
  lemma MoveEntityFrame(e: Entity, f: Entity, delta: real, len: Length)
    requires IsLength(len) && MoverInRange(e) && InMoveQuery(e)
    requires f.movingDef == e.movingDef && f.movingState == e.movingState
    requires f.info.Some? && f.info.value.position == e.info.value.position
    ensures MoverInRange(f)
    ensures MoveEntity(f, delta, len)
         == f.(info := Some(f.info.value.(position := MoveEntity(e, delta, len).info.value.position)),
               movingState := MoveEntity(e, delta, len).movingState)
  {
    assert InMoveQuery(f);
    var me, mf := MoveEntity(e, delta, len), MoveEntity(f, delta, len);
    var p, q := me.info.value.position, mf.info.value.position;
    assert q.min == p.min;
    assert Size(q) == Size(p);
    assert q.max == p.max;
    assert mf.movingState == me.movingState;
  }

  /**
   * What `button_blink` writes depends only on the blink components and the
   * visibility flag: on an entity that agrees with `e` on those, it writes
   * the same phase and the same visibility.
   */
  lemma BlinkEntityFrame(e: Entity, f: Entity, now: real)
    requires InBlinkQuery(e)
    requires f.blinking == e.blinking && f.blinkState == e.blinkState
    requires f.info.Some? && f.info.value.visible == e.info.value.visible
    ensures BlinkEntity(f, now)
         == f.(blinkState := BlinkEntity(e, now).blinkState,
               info := Some(f.info.value.(visible := BlinkEntity(e, now).info.value.visible)))
  {
    var hidden, phase := e.blinking.value.hidden, e.blinkState.value;
    if phase.until <= now {
      var phase' := if phase.Visible? then Hidden(now + hidden) else Visible(now + hidden);
      assert BlinkEntity(e, now) == e.(blinkState := Some(phase'), info := Some(e.info.value.(visible := phase'.Visible?)));
      assert BlinkEntity(f, now) == f.(blinkState := Some(phase'), info := Some(f.info.value.(visible := phase'.Visible?)));
    } else {
      assert BlinkEntity(e, now) == e;
      assert BlinkEntity(f, now) == f;
    }
  }

  /**
   * `button_letters`, `button_blink` and `button_move` all write
   * `ButtonInfo`, so the scheduler runs them one after another in an order
   * it does not fix. On each entity they touch disjoint fields, so every
   * order gives the same entity.
   */
  lemma LettersBlinkCommute(e: Entity, gi: GeneralInput, now: real)
    ensures BlinkEntity(LettersEntity(e, gi), now) == LettersEntity(BlinkEntity(e, now), gi)
  {
    if InBlinkQuery(e) {
      BlinkEntityFrame(e, LettersEntity(e, gi), now);
    }
  }

  lemma LettersMoveCommute(e: Entity, gi: GeneralInput, delta: real, len: Length)
    requires IsLength(len) && MoverInRange(e)
    ensures MoverInRange(LettersEntity(e, gi))
    ensures MoveEntity(LettersEntity(e, gi), delta, len) == LettersEntity(MoveEntity(e, delta, len), gi)
  {
    if InMoveQuery(e) {
      MoveEntityFrame(e, LettersEntity(e, gi), delta, len);
    }
  }

  lemma BlinkMoveCommute(e: Entity, now: real, delta: real, len: Length)
    requires IsLength(len) && MoverInRange(e)
    ensures MoverInRange(BlinkEntity(e, now))
    ensures MoveEntity(BlinkEntity(e, now), delta, len) == BlinkEntity(MoveEntity(e, delta, len), now)
  {
    if InMoveQuery(e) {
      MoveEntityFrame(e, BlinkEntity(e, now), delta, len);
    }
  }
}
