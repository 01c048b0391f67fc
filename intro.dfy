/** The warm-up animation `run_game_intro` plays before the game starts, and
    `set_all_active_then_reset`, which it calls three times. */
module Intro {
  import opened Active
  import opened Page

  /** The panels in the order the intro flashes them one at a time. */
  const IntroOrder: seq<Panel> := [Green, Red, Yellow, Blue]

  /** The first part of the intro. Its paragraphs each unlight the panel lit
      before, light the next one and pause, so the events they produce, read
      in order, are one flash per panel, then a last pause. */
  const IndividualPhase: seq<Event> := Step(Green) + Step(Red) + Step(Yellow) + Step(Blue) + [Sleep]

  /** The first half of `set_all_active_then_reset`: all four lit, a pause. */
  const AllLit: seq<Event> := [Activate(Green), Activate(Red), Activate(Yellow), Activate(Blue), Sleep]

  /** The second half: all four unlit, a pause. */
  const AllUnlit: seq<Event> := [Deactivate(Green), Deactivate(Red), Deactivate(Yellow), Deactivate(Blue), Sleep]

  const AllOnOff: seq<Event> := AllLit + AllUnlit

  /** Everything `run_game_intro` does, in order. */
  const IntroTrace: seq<Event> := IndividualPhase + AllOnOff + AllOnOff + AllOnOff

  /** `set_all_active_then_reset`: returns the events it produces and, in
      `states`, the class names before the first and after each one. While
      it pauses the first time, all four panels are lit. */
  method SetAllActiveThenReset(ge: GameElements) returns (t: seq<Event>, ghost states: seq<ClassNames>)
    requires ge.Valid()
    modifies ge.greenButton`className, ge.redButton`className
    modifies ge.yellowButton`className, ge.blueButton`className
    ensures t == AllOnOff
    ensures Stepwise(t, states) && states[0] == old(ge.Names()) && states[|t|] == ge.Names()
    ensures ge.Names() == old(ge.Names()).Flashed()
    ensures forall p :: states[5].Get(p) == old(ge.Names()).Get(p) + Marker
  {
    ghost var start := ge.Names();
    t := [];
    states := [start];
    StepwiseStart(start);
    ge.greenButton.SetActive();
    StepwiseSnoc(t, states, Activate(Green), ge.Names());
    t := t + [Activate(Green)];
    states := states + [ge.Names()];
    ge.redButton.SetActive();
    StepwiseSnoc(t, states, Activate(Red), ge.Names());
    t := t + [Activate(Red)];
    states := states + [ge.Names()];
    ge.yellowButton.SetActive();
    StepwiseSnoc(t, states, Activate(Yellow), ge.Names());
    t := t + [Activate(Yellow)];
    states := states + [ge.Names()];
    ge.blueButton.SetActive();
    StepwiseSnoc(t, states, Activate(Blue), ge.Names());
    t := t + [Activate(Blue)];
    states := states + [ge.Names()];
    StepwiseSnoc(t, states, Sleep, ge.Names());
    t := t + [Sleep];
    states := states + [ge.Names()];

    ge.greenButton.SetInactive();
    StepwiseSnoc(t, states, Deactivate(Green), ge.Names());
    t := t + [Deactivate(Green)];
    states := states + [ge.Names()];
    ge.redButton.SetInactive();
    StepwiseSnoc(t, states, Deactivate(Red), ge.Names());
    t := t + [Deactivate(Red)];
    states := states + [ge.Names()];
    ge.yellowButton.SetInactive();
    StepwiseSnoc(t, states, Deactivate(Yellow), ge.Names());
    t := t + [Deactivate(Yellow)];
    states := states + [ge.Names()];
    ge.blueButton.SetInactive();
    StepwiseSnoc(t, states, Deactivate(Blue), ge.Names());
    t := t + [Deactivate(Blue)];
    states := states + [ge.Names()];
    StepwiseSnoc(t, states, Sleep, ge.Names());
    t := t + [Sleep];
    states := states + [ge.Names()];
    AllOnOffOneByOne();
    AllOnOffStates(t, states);
  }

  /** The first part of `run_game_intro`: each panel lit, held and unlit in
      intro order, each one unlit as the next is lit, then a last pause.
      Returns the events and, in `states`, the class names before the first
      and after each one. The names end flashed once, and from marker-free
      names at most one panel is lit at every point. */
  method FlashEachInTurn(ge: GameElements) returns (t: seq<Event>, ghost states: seq<ClassNames>)
    requires ge.Valid()
    modifies ge.greenButton`className, ge.redButton`className
    modifies ge.yellowButton`className, ge.blueButton`className
    ensures t == IndividualPhase
    ensures Stepwise(t, states) && states[0] == old(ge.Names()) && states[|t|] == ge.Names()
    ensures ge.Names() == old(ge.Names()).Flashed()
    ensures MarkerFree(old(ge.Names())) ==> forall k :: 0 <= k <= |t| ==> AtMostOneLit(states[k])
  {
    ghost var start := ge.Names();
    t := [];
    states := [start];
    StepwiseStart(start);
    ge.greenButton.SetActive();
    StepwiseSnoc(t, states, Activate(Green), ge.Names());
    t := t + [Activate(Green)];
    states := states + [ge.Names()];
    StepwiseSnoc(t, states, Sleep, ge.Names());
    t := t + [Sleep];
    states := states + [ge.Names()];

    ge.greenButton.SetInactive();
    StepwiseSnoc(t, states, Deactivate(Green), ge.Names());
    t := t + [Deactivate(Green)];
    states := states + [ge.Names()];
    ge.redButton.SetActive();
    StepwiseSnoc(t, states, Activate(Red), ge.Names());
    t := t + [Activate(Red)];
    states := states + [ge.Names()];
    StepwiseSnoc(t, states, Sleep, ge.Names());
    t := t + [Sleep];
    states := states + [ge.Names()];

    ge.redButton.SetInactive();
    StepwiseSnoc(t, states, Deactivate(Red), ge.Names());
    t := t + [Deactivate(Red)];
    states := states + [ge.Names()];
    ge.yellowButton.SetActive();
    StepwiseSnoc(t, states, Activate(Yellow), ge.Names());
    t := t + [Activate(Yellow)];
    states := states + [ge.Names()];
    StepwiseSnoc(t, states, Sleep, ge.Names());
    t := t + [Sleep];
    states := states + [ge.Names()];

    ge.yellowButton.SetInactive();
    StepwiseSnoc(t, states, Deactivate(Yellow), ge.Names());
    t := t + [Deactivate(Yellow)];
    states := states + [ge.Names()];
    ge.blueButton.SetActive();
    StepwiseSnoc(t, states, Activate(Blue), ge.Names());
    t := t + [Activate(Blue)];
    states := states + [ge.Names()];
    StepwiseSnoc(t, states, Sleep, ge.Names());
    t := t + [Sleep];
    states := states + [ge.Names()];

    ge.blueButton.SetInactive();
    StepwiseSnoc(t, states, Deactivate(Blue), ge.Names());
    t := t + [Deactivate(Blue)];
    states := states + [ge.Names()];
    StepwiseSnoc(t, states, Sleep, ge.Names());
    t := t + [Sleep];
    states := states + [ge.Names()];
    IndividualPhaseOneByOne();
    IndividualPhaseStates(t, states);
  }

  /** `run_game_intro`: returns the events it produces and, in `states`, the
      class names before the first and after each one. From marker-free
      names, at most one panel is lit at every point of the first phase. */
  method RunGameIntro(ge: GameElements) returns (t: seq<Event>, ghost states: seq<ClassNames>)
    requires ge.Valid()
    modifies ge.greenButton`className, ge.redButton`className
    modifies ge.yellowButton`className, ge.blueButton`className
    ensures t == IntroTrace
    ensures Stepwise(t, states) && states[0] == old(ge.Names()) && states[|t|] == ge.Names()
    ensures ge.Names() == Run(old(ge.Names()), t)
    ensures MarkerFree(old(ge.Names())) ==> forall k :: 0 <= k <= |IndividualPhase| ==> AtMostOneLit(states[k])
  {
    ghost var start := ge.Names();
    ghost var first, s1, s2, s3;
    var t1, t2, t3;
    t, first := FlashEachInTurn(ge);
    t1, s1 := SetAllActiveThenReset(ge);
    t2, s2 := SetAllActiveThenReset(ge);
    t3, s3 := SetAllActiveThenReset(ge);
    t := t + t1 + t2 + t3;
    states := first + s1[1..] + s2[1..] + s3[1..];
    IntroSplice(first, s1, s2, s3);
    IntroRestores(start);
  }

  /** The intro's record is the first phase's followed by those of the three
      calls, each continuing from the state the one before left; it agrees
      with the first phase's record up to that phase's end. */
  lemma IntroSplice(first: seq<ClassNames>, s1: seq<ClassNames>, s2: seq<ClassNames>, s3: seq<ClassNames>)
    requires Stepwise(IndividualPhase, first)
    requires Stepwise(AllOnOff, s1) && s1[0] == first[|IndividualPhase|]
    requires Stepwise(AllOnOff, s2) && s2[0] == s1[|AllOnOff|]
    requires Stepwise(AllOnOff, s3) && s3[0] == s2[|AllOnOff|]
    ensures Stepwise(IntroTrace, first + s1[1..] + s2[1..] + s3[1..])
    ensures forall k :: 0 <= k <= |IndividualPhase| ==> (first + s1[1..] + s2[1..] + s3[1..])[k] == first[k]
  {
    StepwiseAppend(IndividualPhase, first, AllOnOff, s1);
    StepwiseAppend(IndividualPhase + AllOnOff, first + s1[1..], AllOnOff, s2);
    StepwiseAppend(IndividualPhase + AllOnOff + AllOnOff, first + s1[1..] + s2[1..], AllOnOff, s3);
  }

  /** What states recorded along `set_all_active_then_reset` show: the
      names end flashed once, and at the first pause all four are lit. */
  lemma AllOnOffStates(t: seq<Event>, states: seq<ClassNames>)
    requires t == AllOnOff && Stepwise(t, states)
    ensures states[|t|] == states[0].Flashed()
    ensures forall p :: states[5].Get(p) == states[0].Get(p) + Marker
  {
    StepwiseTraced(t, states);
    TracedLast(states[0], t, states);
    AllOnOffFlashesEach(states[0]);
    AllOnOffLightsAll(states[0]);
  }

  /** What states recorded along the first phase show: the names end
      flashed once, and from marker-free names at most one panel is lit at
      each point. */
  lemma IndividualPhaseStates(t: seq<Event>, states: seq<ClassNames>)
    requires t == IndividualPhase && Stepwise(t, states)
    ensures states[|t|] == states[0].Flashed()
    ensures MarkerFree(states[0]) ==> forall k :: 0 <= k <= |t| ==> AtMostOneLit(states[k])
  {
    StepwiseTraced(t, states);
    TracedLast(states[0], t, states);
    IndividualPhaseFlashesEach(states[0]);
    if MarkerFree(states[0]) {
      IndividualPhaseLightsOneAtATime(states[0]);
    }
  }

  /** The net effect of `set_all_active_then_reset` on the class names: each
      panel lit and unlit once. */
  lemma AllOnOffFlashesEach(names: ClassNames)
    ensures Run(names, AllOnOff) == names.Flashed()
  {
    RunAppend(names, AllLit, AllUnlit);
  }

  /** The first phase, one event after another. */
  lemma IndividualPhaseOneByOne()
    ensures [] + [Activate(Green)] + [Sleep]
      + [Deactivate(Green)] + [Activate(Red)] + [Sleep]
      + [Deactivate(Red)] + [Activate(Yellow)] + [Sleep]
      + [Deactivate(Yellow)] + [Activate(Blue)] + [Sleep]
      + [Deactivate(Blue)] + [Sleep] == IndividualPhase
  {
  }

  /** `set_all_active_then_reset`'s events, one after another. */
  lemma AllOnOffOneByOne()
    ensures [] + [Activate(Green)] + [Activate(Red)] + [Activate(Yellow)] + [Activate(Blue)] + [Sleep]
      + [Deactivate(Green)] + [Deactivate(Red)] + [Deactivate(Yellow)] + [Deactivate(Blue)] + [Sleep] == AllOnOff
  {
  }

  /** The first phase is the four panels flashed in intro order, then a
      pause; the flash of the `i`-th panel is its activation, a pause and its
      deactivation, so each panel is unlit before the next is lit. */
  lemma IndividualPhaseOrder()
    ensures IndividualPhase == Flashes(IntroOrder) + [Sleep]
    ensures forall i :: 0 <= i < 4 ==> IndividualPhase[3 * i..3 * i + 3] == Step(IntroOrder[i])
  {
    assert [Green][..0] == [];
    assert Flashes([Green]) == Step(Green);
    assert [Green, Red][..1] == [Green];
    assert IntroOrder[..3][..2] == [Green, Red];
    assert IntroOrder[..3] == [Green, Red, Yellow];
    forall i | 0 <= i < 4 ensures IndividualPhase[3 * i..3 * i + 3] == Step(IntroOrder[i]) {
      FlashesAt(IntroOrder, i);
      assert IndividualPhase[3 * i..3 * i + 3] == Flashes(IntroOrder)[3 * i..3 * i + 3];
    }
  }

  /** The net effect of the first phase: each panel lit and unlit once. */
  lemma IndividualPhaseFlashesEach(names: ClassNames)
    ensures Run(names, IndividualPhase) == names.Flashed()
  {
    var n1 := names.Set(Green, RemoveMarker(names.Get(Green) + Marker));
    var n2 := n1.Set(Red, RemoveMarker(n1.Get(Red) + Marker));
    var n3 := n2.Set(Yellow, RemoveMarker(n2.Get(Yellow) + Marker));
    StepFlashesItsPanel(names, Green);
    StepFlashesItsPanel(n1, Red);
    StepFlashesItsPanel(n2, Yellow);
    StepFlashesItsPanel(n3, Blue);
    RunAppend(names, Step(Green), Step(Red));
    RunAppend(names, Step(Green) + Step(Red), Step(Yellow));
    RunAppend(names, Step(Green) + Step(Red) + Step(Yellow), Step(Blue));
    RunAppend(names, Step(Green) + Step(Red) + Step(Yellow) + Step(Blue), [Sleep]);
    assert [Sleep][1..] == [];
  }

  /** Starting from marker-free names, at every point of the first phase at
      most one panel is lit. */
  lemma IndividualPhaseLightsOneAtATime(names: ClassNames)
    requires MarkerFree(names)
    ensures forall k :: 0 <= k <= |IndividualPhase| ==> AtMostOneLit(Run(names, IndividualPhase[..k]))
  {
    IndividualPhaseOrder();
    forall k | 0 <= k <= |IndividualPhase| ensures AtMostOneLit(Run(names, IndividualPhase[..k])) {
      if k <= 12 {
        assert IndividualPhase[..k] == Flashes(IntroOrder)[..k];
        FlashesLightOneAtATime(names, IntroOrder, k);
      } else {
        assert IndividualPhase[..k] == Flashes(IntroOrder) + [Sleep];
        RunAppend(names, Flashes(IntroOrder), [Sleep]);
        FlashesRestore(names, IntroOrder);
      }
    }
  }

  /** While `set_all_active_then_reset` pauses the first time, all four
      panels carry the marker. */
  lemma AllOnOffLightsAll(names: ClassNames)
    ensures forall p :: Run(names, AllOnOff[..5]).Get(p) == names.Get(p) + Marker
    ensures forall p :: ContainsMarker(Run(names, AllOnOff[..5]).Get(p))
  {
    assert AllOnOff[..5] == [Activate(Green), Activate(Red), Activate(Yellow), Activate(Blue), Sleep];
    forall p ensures ContainsMarker(Run(names, AllOnOff[..5]).Get(p)) {
      assert MarkerAt(names.Get(p) + Marker, |names.Get(p)|);
    }
  }

  /** The intro lights and unlights each panel four times over; from
      marker-free names it restores every name. */
  lemma IntroRestores(names: ClassNames)
    ensures Run(names, IntroTrace) == names.Flashed().Flashed().Flashed().Flashed()
    ensures MarkerFree(names) ==> Run(names, IntroTrace) == names
  {
    IndividualPhaseFlashesEach(names);
    RunAppend(names, IndividualPhase, AllOnOff);
    AllOnOffFlashesEach(names.Flashed());
    RunAppend(names, IndividualPhase + AllOnOff, AllOnOff);
    AllOnOffFlashesEach(names.Flashed().Flashed());
    RunAppend(names, IndividualPhase + AllOnOff + AllOnOff, AllOnOff);
    AllOnOffFlashesEach(names.Flashed().Flashed().Flashed());
    if MarkerFree(names) {
      FlashedRestores(names);
    }
  }

  /** How often `e` occurs in `t`. */
  function Occurrences(t: seq<Event>, e: Event): (n: nat)
    ensures n <= |t|
    ensures n == 0 <==> e !in t
  {
    if t == [] then 0 else Occurrences(t[..|t| - 1], e) + (if t[|t| - 1] == e then 1 else 0)
  }

  lemma {:induction false} OccurrencesAppend(a: seq<Event>, b: seq<Event>, e: Event)
    ensures Occurrences(a + b, e) == Occurrences(a, e) + Occurrences(b, e)
  {
    if b != [] {
      assert (a + b)[..|a + b| - 1] == a + b[..|b| - 1];
      OccurrencesAppend(a, b[..|b| - 1], e);
    } else {
      assert a + b == a;
    }
  }

  /** A flash of `q` holds its activation, one pause and its deactivation,
      once each, and no other event. */
  lemma StepOccurrences(q: Panel, e: Event)
    ensures Occurrences(Step(q), e) == (if e == Activate(q) || e == Sleep || e == Deactivate(q) then 1 else 0)
  {
  }

  /** Counting over one more event. */
  lemma OccurrencesSnoc(t: seq<Event>, x: Event, e: Event)
    ensures Occurrences(t + [x], e) == Occurrences(t, e) + (if x == e then 1 else 0)
  {
  }

  /** The four panels' events of one kind, in panel order. */
  lemma FourOccurrences(a: Event, b: Event, c: Event, d: Event, e: Event)
    ensures Occurrences([a, b, c, d, Sleep], e) ==
      (if a == e then 1 else 0) + (if b == e then 1 else 0) + (if c == e then 1 else 0) +
      (if d == e then 1 else 0) + (if Sleep == e then 1 else 0)
  {
    var s1: seq<Event> := [a];
    var s2 := s1 + [b];
    var s3 := s2 + [c];
    var s4 := s3 + [d];
    OccurrencesSnoc([], a, e);
    assert [] + [a] == s1;
    OccurrencesSnoc(s1, b, e);
    OccurrencesSnoc(s2, c, e);
    OccurrencesSnoc(s3, d, e);
    OccurrencesSnoc(s4, Sleep, e);
    assert s4 + [Sleep] == [a, b, c, d, Sleep];
  }

  /** `set_all_active_then_reset` lights and unlights each panel once and
      pauses twice. */
  lemma AllOnOffOccurrences(e: Event)
    ensures Occurrences(AllOnOff, e) == (if e.Activate? || e.Deactivate? then 1 else if e == Sleep then 2 else 0)
  {
    FourOccurrences(Activate(Green), Activate(Red), Activate(Yellow), Activate(Blue), e);
    FourOccurrences(Deactivate(Green), Deactivate(Red), Deactivate(Yellow), Deactivate(Blue), e);
    OccurrencesAppend(AllLit, AllUnlit, e);
    match e
    case Activate(p) => match p { case Green => case Red => case Yellow => case Blue => }
    case Deactivate(p) => match p { case Green => case Red => case Yellow => case Blue => }
    case Sleep =>
    case SetScore(_) =>
  }

  /** How often the intro produces each event. */
  lemma IntroOccurrences(e: Event)
    ensures Occurrences(IntroTrace, e) == (if e.Activate? || e.Deactivate? then 4 else if e == Sleep then 11 else 0)
  {
    var a := Step(Green) + Step(Red);
    var b := a + Step(Yellow);
    var c := b + Step(Blue);
    OccurrencesAppend(Step(Green), Step(Red), e);
    OccurrencesAppend(a, Step(Yellow), e);
    OccurrencesAppend(b, Step(Blue), e);
    OccurrencesAppend(c, [Sleep], e);
    assert [Sleep][..0] == [];
    OccurrencesAppend(IndividualPhase, AllOnOff, e);
    OccurrencesAppend(IndividualPhase + AllOnOff, AllOnOff, e);
    OccurrencesAppend(IndividualPhase + AllOnOff + AllOnOff, AllOnOff, e);
    StepOccurrences(Green, e);
    StepOccurrences(Red, e);
    StepOccurrences(Yellow, e);
    StepOccurrences(Blue, e);
    AllOnOffOccurrences(e);
    match e
    case Activate(p) => match p { case Green => case Red => case Yellow => case Blue => }
    case Deactivate(p) => match p { case Green => case Red => case Yellow => case Blue => }
    case Sleep =>
    case SetScore(_) =>
  }

  /** The intro pauses 11 times and lights and unlights each panel 4 times; it
      never touches the score. */
  lemma IntroCounts()
    ensures Occurrences(IntroTrace, Sleep) == 11
    ensures forall p :: Occurrences(IntroTrace, Activate(p)) == 4 && Occurrences(IntroTrace, Deactivate(p)) == 4
    ensures forall e :: e in IntroTrace ==> !e.SetScore?
  {
    IntroOccurrences(Sleep);
    forall p ensures Occurrences(IntroTrace, Activate(p)) == 4 && Occurrences(IntroTrace, Deactivate(p)) == 4 {
      IntroOccurrences(Activate(p));
      IntroOccurrences(Deactivate(p));
    }
    forall e | e in IntroTrace ensures !e.SetScore? {
      IntroOccurrences(e);
    }
  }
}
