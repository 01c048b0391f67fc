/** The host page as the game sees it: the five elements it binds by id, the
    events a run produces on them, and what those events do to the panels'
    class names. */
module Page {
  import opened Active

  datatype Option<T> = None | Some(value: T)

  const GreenId: string := "green_button"
  const RedId: string := "red_button"
  const YellowId: string := "yellow_button"
  const BlueId: string := "blue_button"
  const ScoreId: string := "user_score"

  /** The ids `GameElements::new` looks up, in the order it looks them up. */
  const RequiredIds: seq<string> := [GreenId, RedId, YellowId, BlueId, ScoreId]

  /** The page's elements, by id (`document.get_element_by_id`). */
  type Document = map<string, Element>

  /** The position in `ids` of the first id the document lacks: the look-up
      whose `unwrap` panics. `None` when every id is present. */
  function FirstMissing(doc: Document, ids: seq<string>): (r: Option<nat>)
    ensures r.None? <==> forall i :: 0 <= i < |ids| ==> ids[i] in doc
    ensures r.Some? ==> r.value < |ids| && ids[r.value] !in doc
    ensures r.Some? ==> forall i :: 0 <= i < r.value ==> ids[i] in doc
  {
    if ids == [] then None
    else if ids[0] !in doc then Some(0)
    else match FirstMissing(doc, ids[1..])
      case None => None
      case Some(k) => Some(k + 1)
  }

  /** Every id the game needs is on the page. */
  predicate AllPresent(doc: Document) {
    GreenId in doc && RedId in doc && YellowId in doc && BlueId in doc && ScoreId in doc
  }

  /** Binding succeeds exactly when no look-up comes back empty. */
  lemma BindingFailsOnlyOnMissingId(doc: Document)
    ensures FirstMissing(doc, RequiredIds).None? <==> AllPresent(doc)
  {
    if AllPresent(doc) {
      forall i | 0 <= i < |RequiredIds| ensures RequiredIds[i] in doc {
        assert i == 0 || i == 1 || i == 2 || i == 3 || i == 4;
      }
    } else {
      var i := if GreenId !in doc then 0 else if RedId !in doc then 1
               else if YellowId !in doc then 2 else if BlueId !in doc then 3 else 4;
      assert RequiredIds[i] !in doc;
    }
  }

  /** What `GameElements::new` needs of the page: each look-up finds an
      element, and, since an element carries one id, the five are different
      objects. */
  predicate Bindable(doc: Document) {
    AllPresent(doc) &&
    doc[GreenId] != doc[RedId] && doc[GreenId] != doc[YellowId] &&
    doc[GreenId] != doc[BlueId] && doc[GreenId] != doc[ScoreId] &&
    doc[RedId] != doc[YellowId] && doc[RedId] != doc[BlueId] &&
    doc[RedId] != doc[ScoreId] && doc[YellowId] != doc[BlueId] &&
    doc[YellowId] != doc[ScoreId] && doc[BlueId] != doc[ScoreId]
  }

  /** The four panels' class names, read off the page. */
  function PanelNames(doc: Document): ClassNames
    requires AllPresent(doc)
    reads doc[GreenId], doc[RedId], doc[YellowId], doc[BlueId]
  {
    ClassNames(doc[GreenId].className, doc[RedId].className, doc[YellowId].className, doc[BlueId].className)
  }

  /** The four panel fields of `GameElements`. */
  datatype Panel = Green | Red | Yellow | Blue

  /** What a run does that the page can observe, in order: a panel's
      `set_active` or `set_inactive`, a 500 ms pause, or a new text for the
      score element. */
  datatype Event = Activate(panel: Panel) | Sleep | Deactivate(panel: Panel) | SetScore(text: string)

  /** One flash of a panel: lit, a pause, unlit. */
  function Step(p: Panel): seq<Event> {
    [Activate(p), Sleep, Deactivate(p)]
  }

  /** The class names of the four panels. */
  datatype ClassNames = ClassNames(green: string, red: string, yellow: string, blue: string)
  {
    function Get(p: Panel): string {
      match p
      case Green => green
      case Red => red
      case Yellow => yellow
      case Blue => blue
    }

    /** Every name after its panel has been lit and unlit once. */
    function Flashed(): ClassNames {
      ClassNames(RemoveMarker(green + Marker), RemoveMarker(red + Marker),
                 RemoveMarker(yellow + Marker), RemoveMarker(blue + Marker))
    }

    function Set(p: Panel, s: string): ClassNames {
      match p
      case Green => this.(green := s)
      case Red => this.(red := s)
      case Yellow => this.(yellow := s)
      case Blue => this.(blue := s)
    }
  }

  /** No panel's class name holds the marker. */
  ghost predicate MarkerFree(names: ClassNames) {
    forall p :: !ContainsMarker(names.Get(p))
  }

  /** The class names after one event. */
  function Apply(names: ClassNames, e: Event): ClassNames {
    match e
    case Activate(p) => names.Set(p, names.Get(p) + Marker)
    case Deactivate(p) => names.Set(p, RemoveMarker(names.Get(p)))
    case Sleep => names
    case SetScore(_) => names
  }

  /** An event changes only the name of the panel it is about: activation
      appends the marker, deactivation removes it, and a pause or a score
      update changes no class name. */
  lemma ApplyTouchesOnlyItsPanel(names: ClassNames, e: Event)
    ensures e.Activate? ==> Apply(names, e).Get(e.panel) == names.Get(e.panel) + Marker
    ensures e.Deactivate? ==> Apply(names, e).Get(e.panel) == RemoveMarker(names.Get(e.panel))
    ensures forall q :: !((e.Activate? || e.Deactivate?) && e.panel == q) ==> Apply(names, e).Get(q) == names.Get(q)
  {
  }

  /** The class names after a sequence of events. */
  function Run(names: ClassNames, t: seq<Event>): ClassNames
    decreases |t|
  {
    if t == [] then names else Run(Apply(names, t[0]), t[1..])
  }

  /** Running two traces one after the other is running their concatenation. */
  lemma {:induction false} RunAppend(names: ClassNames, a: seq<Event>, b: seq<Event>)
    ensures Run(names, a + b) == Run(Run(names, a), b)
    decreases |a|
  {
    if a == [] {
      assert a + b == b;
    } else {
      assert (a + b)[1..] == a[1..] + b;
      RunAppend(Apply(names, a[0]), a[1..], b);
    }
  }

  /** Running a trace and then one more event. */
  lemma RunSnoc(names: ClassNames, t: seq<Event>, e: Event)
    ensures Run(names, t + [e]) == Apply(Run(names, t), e)
  {
    RunAppend(names, t, [e]);
    assert [e][1..] == [];
  }

  /** `states` are the class names at every point of `t` run from `start`:
      before the first event and after each one. */
  ghost predicate Traced(start: ClassNames, t: seq<Event>, states: seq<ClassNames>) {
    |states| == |t| + 1 && forall k :: 0 <= k <= |t| ==> states[k] == Run(start, t[..k])
  }

  /** Each recorded state is the one before it with the next event applied. */
  ghost predicate Stepwise(t: seq<Event>, states: seq<ClassNames>) {
    |states| == |t| + 1 && forall i :: 0 <= i < |t| ==> states[i + 1] == Apply(states[i], t[i])
  }

  /** Before any event, the only state is the start. */
  lemma StepwiseStart(start: ClassNames)
    ensures Stepwise([], [start])
  {
  }

  /** Recording one more event and the state it leads to. */
  lemma StepwiseSnoc(t: seq<Event>, states: seq<ClassNames>, e: Event, now: ClassNames)
    requires Stepwise(t, states)
    requires now == Apply(states[|t|], e)
    ensures Stepwise(t + [e], states + [now])
  {
  }

  /** Recording a trace that continues from the last recorded state. */
  lemma StepwiseAppend(t: seq<Event>, states: seq<ClassNames>, u: seq<Event>, more: seq<ClassNames>)
    requires Stepwise(t, states)
    requires Stepwise(u, more) && more[0] == states[|t|]
    ensures Stepwise(t + u, states + more[1..])
  {
    var s' := states + more[1..];
    forall i | |t| <= i < |t + u| ensures s'[i + 1] == Apply(s'[i], (t + u)[i]) {
      assert s'[i + 1] == more[i + 1 - |t|];
      assert s'[i] == more[i - |t|];
    }
  }

  /** States recorded one event at a time are the states of every prefix of
      the trace. */
  lemma {:induction false} StepwiseTraced(t: seq<Event>, states: seq<ClassNames>)
    requires Stepwise(t, states)
    ensures Traced(states[0], t, states)
  {
    if t == [] {
      assert t[..0] == t;
    } else {
      var n := |t| - 1;
      var t0 := t[..n];
      var s0 := states[..n + 1];
      assert Stepwise(t0, s0) by {
        forall i | 0 <= i < |t0| ensures s0[i + 1] == Apply(s0[i], t0[i]) {
          assert s0[i + 1] == states[i + 1] && s0[i] == states[i] && t0[i] == t[i];
        }
      }
      StepwiseTraced(t0, s0);
      forall k | 0 <= k <= |t| ensures states[k] == Run(states[0], t[..k]) {
        if k <= n {
          assert t[..k] == t0[..k];
          assert states[k] == s0[k];
        } else {
          assert t0[..n] == t0 && t[..k] == t0 + [t[n]];
          assert states[n] == s0[n] == Run(states[0], t0);
          RunSnoc(states[0], t0, t[n]);
        }
      }
    }
  }

  /** The last recorded state is the one the whole trace reaches. */
  lemma TracedLast(start: ClassNames, t: seq<Event>, states: seq<ClassNames>)
    requires Traced(start, t, states)
    ensures states[|t|] == Run(start, t)
  {
    assert t[..|t|] == t;
  }

  /** The score text after an event: a score update replaces it, and no
      other event touches it. */
  function ShowScore(score: string, e: Event): string {
    if e.SetScore? then e.text else score
  }

  /** Each recorded score text is the one before it after the next event. */
  ghost predicate ScoreStepwise(t: seq<Event>, scores: seq<string>) {
    |scores| == |t| + 1 && forall i :: 0 <= i < |t| ==> scores[i + 1] == ShowScore(scores[i], t[i])
  }

  /** Recording one more event and the score text it leaves. */
  lemma ScoreStepwiseSnoc(t: seq<Event>, scores: seq<string>, e: Event, now: string)
    requires ScoreStepwise(t, scores)
    requires now == ShowScore(scores[|t|], e)
    ensures ScoreStepwise(t + [e], scores + [now])
  {
  }

  /** Events that never set the score leave the text as it was at every point
      they reach. */
  lemma ScoreStepwiseUntouched(t: seq<Event>, scores: seq<string>, u: seq<Event>, score: string)
    requires ScoreStepwise(t, scores) && score == scores[|t|]
    requires forall e :: e in u ==> !e.SetScore?
    ensures ScoreStepwise(t + u, scores + seq(|u|, _ => score))
  {
    var s' := scores + seq(|u|, _ => score);
    forall i | |t| <= i < |t + u| ensures s'[i + 1] == ShowScore(s'[i], (t + u)[i]) {
      assert (t + u)[i] == u[i - |t|];
      assert u[i - |t|] in u;
    }
  }

  /** A score set by the first event and by no later one reads that text at
      every point after the first event. */
  lemma {:induction false} ScoreKept(t: seq<Event>, scores: seq<string>, k: int)
    requires ScoreStepwise(t, scores) && |t| > 0 && t[0].SetScore?
    requires forall i :: 0 < i < |t| ==> !t[i].SetScore?
    requires 1 <= k <= |t|
    ensures scores[k] == t[0].text
  {
    if k > 1 {
      ScoreKept(t, scores, k - 1);
    }
  }

  /** The net effect of a flash of `p`: its name gains the marker and then
      loses what one pass of removal finds; no other name changes. */
  lemma StepFlashesItsPanel(names: ClassNames, p: Panel)
    ensures Run(names, Step(p)) == names.Set(p, RemoveMarker(names.Get(p) + Marker))
  {
  }

  /** At no point of a flash of `p` does another panel's name change. */
  lemma StepTouchesOnlyItsPanel(names: ClassNames, p: Panel)
    ensures forall k, q :: 0 <= k <= 3 && q != p ==> Run(names, Step(p)[..k]).Get(q) == names.Get(q)
  {
    var t := Step(p);
    var lit := Apply(names, Activate(p));
    assert t[..0] == [];
    RunSnoc(names, [], t[0]);
    assert t[..1] == [] + [t[0]];
    RunSnoc(names, t[..1], t[1]);
    assert t[..2] == t[..1] + [t[1]];
    RunSnoc(names, t[..2], t[2]);
    assert t[..3] == t[..2] + [t[2]];
    ApplyTouchesOnlyItsPanel(names, Activate(p));
    ApplyTouchesOnlyItsPanel(lit, Deactivate(p));
  }

  /** Lighting and unlighting a panel whose name holds no marker restores
      it; with all names marker-free, a flash of every panel changes nothing. */
  lemma FlashedRestores(names: ClassNames)
    requires MarkerFree(names)
    ensures names.Flashed() == names
  {
    ActivateThenDeactivate(names.Get(Green));
    ActivateThenDeactivate(names.Get(Red));
    ActivateThenDeactivate(names.Get(Yellow));
    ActivateThenDeactivate(names.Get(Blue));
  }

  /** A flash of a panel whose names are all marker-free changes nothing. */
  lemma StepRestores(names: ClassNames, p: Panel)
    requires MarkerFree(names)
    ensures Run(names, Step(p)) == names
  {
    StepFlashesItsPanel(names, p);
    ActivateThenDeactivate(names.Get(p));
    match p
    case Green =>
    case Red =>
    case Yellow =>
    case Blue =>
  }

  /** Flashes of the given panels, one after the other. */
  function Flashes(ps: seq<Panel>): (t: seq<Event>)
    ensures |t| == 3 * |ps|
  {
    if ps == [] then [] else Flashes(ps[..|ps| - 1]) + Step(ps[|ps| - 1])
  }

  /** The flash of the `i`-th panel sits at positions `3 * i` to `3 * i + 2`. */
  lemma {:induction false} FlashesAt(ps: seq<Panel>, i: int)
    requires 0 <= i < |ps|
    ensures Flashes(ps)[3 * i..3 * i + 3] == Step(ps[i])
  {
    var init := ps[..|ps| - 1];
    if i < |ps| - 1 {
      FlashesAt(init, i);
      assert init[i] == ps[i];
      assert Flashes(ps)[3 * i..3 * i + 3] == Flashes(init)[3 * i..3 * i + 3];
    } else {
      assert Flashes(ps)[3 * i..3 * i + 3] == Flashes(ps)[|Flashes(init)|..];
    }
  }

  /** Flashes starting from marker-free names leave every name as it was. */
  lemma {:induction false} FlashesRestore(names: ClassNames, ps: seq<Panel>)
    requires MarkerFree(names)
    ensures Run(names, Flashes(ps)) == names
  {
    if ps != [] {
      var init := ps[..|ps| - 1];
      FlashesRestore(names, init);
      RunAppend(names, Flashes(init), Step(ps[|ps| - 1]));
      StepRestores(names, ps[|ps| - 1]);
    }
  }

  /** At most one panel's class name holds the marker. */
  ghost predicate AtMostOneLit(names: ClassNames) {
    forall p, q :: p != q && ContainsMarker(names.Get(p)) ==> !ContainsMarker(names.Get(q))
  }

  /** A series of flashes never sets the score. */
  lemma {:induction false} FlashesLeaveScore(ps: seq<Panel>)
    ensures forall e :: e in Flashes(ps) ==> !e.SetScore?
  {
    if ps != [] {
      FlashesLeaveScore(ps[..|ps| - 1]);
    }
  }

  /** Starting from marker-free names, at every point of a series of flashes
      at most one panel is lit. */
  lemma {:induction false} FlashesLightOneAtATime(names: ClassNames, ps: seq<Panel>, k: int)
    requires MarkerFree(names)
    requires 0 <= k <= |Flashes(ps)|
    ensures AtMostOneLit(Run(names, Flashes(ps)[..k]))
  {
    if ps == [] {
      assert Flashes(ps)[..k] == [];
    } else {
      var init := ps[..|ps| - 1];
      var last := ps[|ps| - 1];
      var n := |Flashes(init)|;
      if k <= n {
        assert Flashes(ps)[..k] == Flashes(init)[..k];
        FlashesLightOneAtATime(names, init, k);
      } else {
        assert Flashes(ps)[..k] == Flashes(init) + Step(last)[..k - n];
        RunAppend(names, Flashes(init), Step(last)[..k - n]);
        FlashesRestore(names, init);
        StepTouchesOnlyItsPanel(names, last);
        var r := Run(names, Step(last)[..k - n]);
        assert forall q :: q != last ==> r.Get(q) == names.Get(q);
      }
    }
  }

  /** The five elements `run_simon` binds. */
  class GameElements {
    const greenButton: Element
    const redButton: Element
    const yellowButton: Element
    const blueButton: Element
    const score: Element

    /** The panels' class names. */
    function Names(): ClassNames
      reads greenButton, redButton, yellowButton, blueButton
    {
      ClassNames(greenButton.className, redButton.className, yellowButton.className, blueButton.className)
    }

    /** The five elements are different objects. */
    ghost predicate Valid() {
      greenButton != redButton && greenButton != yellowButton && greenButton != blueButton &&
      greenButton != score && redButton != yellowButton && redButton != blueButton &&
      redButton != score && yellowButton != blueButton && yellowButton != score &&
      blueButton != score
    }

    /** `GameElements::new`: binds each field to the element with its id. */
    constructor (doc: Document)
      requires Bindable(doc)
      ensures greenButton == doc[GreenId] && redButton == doc[RedId]
      ensures yellowButton == doc[YellowId] && blueButton == doc[BlueId]
      ensures score == doc[ScoreId]
      ensures Valid()
    {
      greenButton := doc[GreenId];
      redButton := doc[RedId];
      yellowButton := doc[YellowId];
      blueButton := doc[BlueId];
      score := doc[ScoreId];
    }
  }
}
