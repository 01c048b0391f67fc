/** The earlier build's `run_simon`: it binds the page and plays the intro,
    and does nothing else. Its `GameElements`, `Active` and `run_game_intro`
    are the same as the game's. */
module EarlySimon {
  import opened Active
  import opened Page
  import opened Intro

  /** `run_simon` of the earlier build: binds the five elements, then plays
      the intro; the score is never written. */
  method RunSimon(doc: Document) returns (log: seq<Event>, ghost states: seq<ClassNames>)
    requires Bindable(doc)
    modifies (doc[GreenId] as Element)`className, (doc[RedId] as Element)`className
    modifies (doc[YellowId] as Element)`className, (doc[BlueId] as Element)`className
    ensures log == IntroTrace
    ensures Stepwise(log, states) && states[0] == old(PanelNames(doc)) && states[|log|] == PanelNames(doc)
    ensures PanelNames(doc) == Run(old(PanelNames(doc)), log)
    ensures MarkerFree(old(PanelNames(doc))) ==> PanelNames(doc) == old(PanelNames(doc))
    ensures MarkerFree(old(PanelNames(doc))) ==> forall k :: 0 <= k <= |IndividualPhase| ==> AtMostOneLit(states[k])
  {
    var ge := new GameElements(doc);
    log, states := RunGameIntro(ge);
    IntroRestores(old(PanelNames(doc)));
  }
}
