/** The game proper: the randomly chosen buttons, the score text, and
    `run_simon`, which binds the page, shows the score, plays the intro and
    then grows and replays the colour sequence until a Blue is drawn. */
module SimonGame {
  import opened Active
  import opened Page
  import opened Intro

  datatype ChosenButton = GreenButton | RedButton | YellowButton | BlueButton

  /** `sample`: the value `rng.gen_range(0..=3)` returned, turned into a
      button; every value other than 0, 1 and 2 falls to the last arm. A
      draw ends the game exactly when it is not one of 0, 1 and 2. */
  function Sample(n: int): (b: ChosenButton)
    ensures b == BlueButton <==> !(0 <= n < 3)
  {
    match n
    case 0 => GreenButton
    case 1 => RedButton
    case 2 => YellowButton
    case _ => BlueButton
  }

  /** The draw that gives `b`. */
  function DrawOf(b: ChosenButton): (n: int)
    ensures 0 <= n <= 3
  {
    match b
    case GreenButton => 0
    case RedButton => 1
    case YellowButton => 2
    case BlueButton => 3
  }

  /** On the range `gen_range(0..=3)` draws from, `sample` is one to one and
      onto: every button is the image of exactly one draw. */
  lemma SampleIsBijective()
    ensures forall b :: Sample(DrawOf(b)) == b
    ensures forall n :: 0 <= n <= 3 ==> DrawOf(Sample(n)) == n
    ensures forall m, n :: 0 <= m <= 3 && 0 <= n <= 3 && Sample(m) == Sample(n) ==> m == n
  {
  }

  /** The panel a button's match arm flashes. */
  function PanelOf(b: ChosenButton): Panel {
    match b
    case GreenButton => Green
    case RedButton => Red
    case YellowButton => Yellow
    case BlueButton => Blue
  }

  /** The buttons the successive calls of `rand::random` give. */
  function Drawn(draws: seq<int>): seq<ChosenButton> {
    seq(|draws|, i requires 0 <= i < |draws| => Sample(draws[i]))
  }

  /** Each button depends on its own draw only: the buttons of draws made
      one after another are the two runs' buttons, one after the other. */
  lemma DrawnAppend(a: seq<int>, b: seq<int>)
    ensures Drawn(a + b) == Drawn(a) + Drawn(b)
  {
    forall i | 0 <= i < |a + b| ensures Drawn(a + b)[i] == (Drawn(a) + Drawn(b))[i] {
      if i >= |a| {
        assert (a + b)[i] == b[i - |a|];
      }
    }
  }

  /** The buttons of the first `k` draws are the first `k` buttons. */
  lemma DrawnPrefix(draws: seq<int>, k: int)
    requires 0 <= k <= |draws|
    ensures Drawn(draws[..k]) == Drawn(draws)[..k]
  {
    assert draws == draws[..k] + draws[k..];
    DrawnAppend(draws[..k], draws[k..]);
  }

  /** The colour sequence a game plays: the drawn buttons up to and including
      the first Blue, or all of them when there is none. */
  function Game(bs: seq<ChosenButton>): (g: seq<ChosenButton>)
    ensures |g| <= |bs| && g == bs[..|g|]
    ensures forall i :: 0 <= i < |g| - 1 ==> g[i] != BlueButton
    ensures BlueButton in g <==> BlueButton in bs
    ensures BlueButton in bs ==> |g| > 0 && g[|g| - 1] == BlueButton
    ensures BlueButton !in bs ==> g == bs
  {
    if bs == [] then []
    else if bs[0] == BlueButton then [BlueButton]
    else [bs[0]] + Game(bs[1..])
  }

  /** A game that ends holds exactly one Blue. */
  lemma GameHasOneBlue(bs: seq<ChosenButton>)
    requires BlueButton in bs
    ensures multiset(Game(bs))[BlueButton] == 1
  {
    OnlyLastBlue(Game(bs));
  }

  /** A sequence whose only Blue is its last element holds one Blue. */
  lemma OnlyLastBlue(g: seq<ChosenButton>)
    requires |g| > 0 && g[|g| - 1] == BlueButton
    requires forall i :: 0 <= i < |g| - 1 ==> g[i] != BlueButton
    ensures multiset(g)[BlueButton] == 1
  {
    var init := g[..|g| - 1];
    assert g == init + [BlueButton];
    assert BlueButton !in init by {
      forall i | 0 <= i < |init| ensures init[i] != BlueButton {
        assert init[i] == g[i];
      }
    }
    assert multiset(g) == multiset(init) + multiset{BlueButton};
    assert multiset(init)[BlueButton] == 0;
  }

  /** For draws from `0..=3`, the game's colours are the draws up to and
      including the first 3, read back through `sample`. */
  lemma GameStopsAtFirstThree(draws: seq<int>, k: int)
    requires forall i :: 0 <= i < |draws| ==> 0 <= draws[i] <= 3
    requires 0 <= k < |draws| && draws[k] == 3
    requires forall i :: 0 <= i < k ==> draws[i] != 3
    ensures |Game(Drawn(draws))| == k + 1
    ensures forall i :: 0 <= i <= k ==> DrawOf(Game(Drawn(draws))[i]) == draws[i]
  {
    var bs := Drawn(draws);
    SampleIsBijective();
    GameIsFirstBlue(bs, bs[..k + 1]);
  }

  /** A prefix of `bs` with no Blue before its end is `Game(bs)` once it ends
      in a Blue or takes all of `bs`. */
  lemma {:induction false} GameIsFirstBlue(bs: seq<ChosenButton>, p: seq<ChosenButton>)
    requires |p| <= |bs| && p == bs[..|p|]
    requires forall i :: 0 <= i < |p| - 1 ==> p[i] != BlueButton
    requires (|p| > 0 && p[|p| - 1] == BlueButton) || (BlueButton !in p && |p| == |bs|)
    ensures p == Game(bs)
  {
    if |p| == 0 {
    } else if p[0] == BlueButton {
      assert |p| == 1;
    } else {
      GameIsFirstBlue(bs[1..], p[1..]);
      assert p == [p[0]] + p[1..];
    }
  }

  /** The match arms' panels for a colour sequence. */
  function Panels(cs: seq<ChosenButton>): seq<Panel> {
    seq(|cs|, i requires 0 <= i < |cs| => PanelOf(cs[i]))
  }

  /** The panels of two colour sequences one after the other are the panels
      of each, one after the other. */
  lemma PanelsAppend(a: seq<ChosenButton>, b: seq<ChosenButton>)
    ensures Panels(a + b) == Panels(a) + Panels(b)
  {
    forall i | 0 <= i < |a + b| ensures Panels(a + b)[i] == (Panels(a) + Panels(b))[i] {
      if i >= |a| {
        assert (a + b)[i] == b[i - |a|];
      }
    }
  }

  /** One round: every colour of the sequence flashed, in order. */
  function Replay(cs: seq<ChosenButton>): seq<Event> {
    Flashes(Panels(cs))
  }

  /** The `i`-th colour's flash sits at positions `3 * i` to `3 * i + 2` of
      its round, so a round replays the sequence in insertion order. */
  lemma ReplayOrder(cs: seq<ChosenButton>, i: int)
    requires 0 <= i < |cs|
    ensures |Replay(cs)| == 3 * |cs|
    ensures Replay(cs)[3 * i..3 * i + 3] == Step(PanelOf(cs[i]))
  {
    FlashesAt(Panels(cs), i);
  }

  /** A round over one more colour is the shorter round and one more flash. */
  lemma ReplaySnoc(cs: seq<ChosenButton>, j: int)
    requires 0 <= j < |cs|
    ensures Replay(cs[..j + 1]) == Replay(cs[..j]) + Step(PanelOf(cs[j]))
    ensures BlueButton in cs[..j + 1] <==> BlueButton in cs[..j] || cs[j] == BlueButton
  {
    assert cs[..j + 1] == cs[..j] + [cs[j]];
    assert BlueButton in cs[..j + 1] <==> BlueButton in cs[..j] || cs[j] == BlueButton;
    PanelsAppend(cs[..j], [cs[j]]);
    assert (Panels(cs[..j]) + [PanelOf(cs[j])])[..j] == Panels(cs[..j]);
  }

  /** All rounds of a game with colour sequence `cs`: one round per length of
      the sequence, after the push of its last colour. */
  function Rounds(cs: seq<ChosenButton>): seq<Event>
    decreases |cs|
  {
    if cs == [] then [] else Rounds(cs[..|cs| - 1]) + Replay(cs)
  }

  /** A game over `n` colours flashes `n * (n + 1) / 2` panels, three events
      each. */
  lemma {:induction false} RoundsLength(cs: seq<ChosenButton>)
    ensures 2 * |Rounds(cs)| == 3 * |cs| * (|cs| + 1)
  {
    if cs != [] {
      var n := |cs|;
      RoundsLength(cs[..n - 1]);
      assert |Replay(cs)| == 3 * n;
      assert 3 * (n - 1) * n + 2 * (3 * n) == 3 * n * (n + 1);
    }
  }

  /** Each round replays the sequence as it stood after that round's push,
      and the earlier rounds come first. */
  lemma {:induction false} RoundsPrefix(cs: seq<ChosenButton>, i: int)
    requires 0 <= i < |cs|
    ensures Rounds(cs[..i + 1]) == Rounds(cs[..i]) + Replay(cs[..i + 1])
    ensures Rounds(cs[..i + 1]) <= Rounds(cs)
  {
    assert cs[..i + 1][..i] == cs[..i];
    if i + 1 < |cs| {
      RoundsPrefix(cs[..|cs| - 1], i);
      assert cs[..|cs| - 1][..i + 1] == cs[..i + 1];
    } else {
      assert cs[..i + 1] == cs;
    }
  }

  /** The game never sets the score once the rounds start. */
  lemma {:induction false} RoundsLeaveScore(cs: seq<ChosenButton>)
    ensures forall e :: e in Rounds(cs) ==> !e.SetScore?
  {
    if cs != [] {
      RoundsLeaveScore(cs[..|cs| - 1]);
      FlashesLeaveScore(Panels(cs));
    }
  }

  /** From marker-free class names, every round leaves them as they were. */
  lemma {:induction false} RoundsRestore(names: ClassNames, cs: seq<ChosenButton>)
    requires MarkerFree(names)
    ensures Run(names, Rounds(cs)) == names
  {
    if cs != [] {
      RoundsRestore(names, cs[..|cs| - 1]);
      RunAppend(names, Rounds(cs[..|cs| - 1]), Replay(cs));
      FlashesRestore(names, Panels(cs));
    }
  }

  /** From marker-free class names, at every point of the rounds at most one
      panel is lit. */
  lemma {:induction false} RoundsLightOneAtATime(names: ClassNames, cs: seq<ChosenButton>, k: int)
    requires MarkerFree(names)
    requires 0 <= k <= |Rounds(cs)|
    ensures AtMostOneLit(Run(names, Rounds(cs)[..k]))
  {
    if cs == [] {
      assert Rounds(cs)[..k] == [];
    } else {
      var init := Rounds(cs[..|cs| - 1]);
      if k <= |init| {
        assert Rounds(cs)[..k] == init[..k];
        RoundsLightOneAtATime(names, cs[..|cs| - 1], k);
      } else {
        assert Rounds(cs)[..k] == init + Replay(cs)[..k - |init|];
        RunAppend(names, init, Replay(cs)[..k - |init|]);
        RoundsRestore(names, cs[..|cs| - 1]);
        FlashesLightOneAtATime(names, Panels(cs), k - |init|);
      }
    }
  }

  /** The digit character for `d`. */
  function DigitChar(d: nat): char
    requires d < 10
  {
    "0123456789"[d]
  }

  predicate IsDigit(c: char) {
    '0' <= c <= '9'
  }

  /** `{}` applied to a `usize`: its decimal digits, most significant first,
      with no leading zero. */
  function DecimalString(n: nat): (s: string)
    ensures |s| > 0
    ensures forall i :: 0 <= i < |s| ==> IsDigit(s[i])
    ensures s[0] == '0' ==> s == "0"
  {
    if n < 10 then [DigitChar(n)] else DecimalString(n / 10) + [DigitChar(n % 10)]
  }

  /** The number a string of digits denotes. */
  function DecimalValue(s: string): int
    requires forall i :: 0 <= i < |s| ==> IsDigit(s[i])
  {
    if s == [] then 0 else 10 * DecimalValue(s[..|s| - 1]) + (s[|s| - 1] as int - '0' as int)
  }

  /** Reading the digits back gives the number. */
  lemma {:induction false} DecimalRoundTrip(n: nat)
    ensures DecimalValue(DecimalString(n)) == n
  {
    if n < 10 {
      assert n == 0 || n == 1 || n == 2 || n == 3 || n == 4 || n == 5 || n == 6 || n == 7 || n == 8 || n == 9;
    } else {
      DecimalRoundTrip(n / 10);
      var s := DecimalString(n);
      assert s[..|s| - 1] == DecimalString(n / 10);
      var d := n % 10;
      assert d == 0 || d == 1 || d == 2 || d == 3 || d == 4 || d == 5 || d == 6 || d == 7 || d == 8 || d == 9;
    }
  }

  /** The text `run_simon` gives the score element for a sequence length. */
  function ScoreText(n: nat): (s: string)
    ensures |s| > 12 && s[..12] == "High Score: "
    ensures forall i :: 0 <= i < |s[12..]| ==> IsDigit(s[12..][i])
    ensures DecimalValue(s[12..]) == n
  {
    DecimalRoundTrip(n);
    "High Score: " + DecimalString(n)
  }

  /** The score is shown before the first push, so it reads 0. */
  lemma ScoreAtStart()
    ensures ScoreText(0) == "High Score: 0"
  {
  }

  /** One arm of the `match` in `run_simon`'s `for` loop: the button's panel
      lit, a pause, the panel unlit. */
  method FlashButton(ge: GameElements, b: ChosenButton) returns (t: seq<Event>)
    requires ge.Valid()
    modifies ge.greenButton`className, ge.redButton`className
    modifies ge.yellowButton`className, ge.blueButton`className
    ensures t == Step(PanelOf(b))
    ensures ge.Names() == Run(old(ge.Names()), t)
  {
    match b {
      case GreenButton =>
        ge.greenButton.SetActive();
        ge.greenButton.SetInactive();
      case RedButton =>
        ge.redButton.SetActive();
        ge.redButton.SetInactive();
      case YellowButton =>
        ge.yellowButton.SetActive();
        ge.yellowButton.SetInactive();
      case BlueButton =>
        ge.blueButton.SetActive();
        ge.blueButton.SetInactive();
    }
    t := Step(PanelOf(b));
    StepFlashesItsPanel(old(ge.Names()), PanelOf(b));
  }

  /** The `for` loop of `run_simon`: each colour of the sequence flashed on
      its panel, in order; the Blue arm also clears `running`. */
  method PlayRound(ge: GameElements, cs: seq<ChosenButton>, running: bool) returns (t: seq<Event>, stillRunning: bool)
    requires ge.Valid()
    modifies ge.greenButton`className, ge.redButton`className
    modifies ge.yellowButton`className, ge.blueButton`className
    ensures t == Replay(cs)
    ensures stillRunning <==> running && BlueButton !in cs
    ensures ge.Names() == Run(old(ge.Names()), t)
  {
    t := [];
    stillRunning := running;
    for j := 0 to |cs|
      invariant t == Replay(cs[..j])
      invariant stillRunning <==> running && BlueButton !in cs[..j]
      invariant ge.Names() == Run(old(ge.Names()), t)
    {
      var curr := cs[j];
      var flash := FlashButton(ge, curr);
      if curr == BlueButton {
        stillRunning := false;
      }
      RunAppend(old(ge.Names()), t, flash);
      ReplaySnoc(cs, j);
      t := t + flash;
    }
    assert cs[..|cs|] == cs;
  }

  /** The `while running` loop of `run_simon`: a drawn button pushed, then the
      whole sequence replayed, until a Blue has been played. `draws` are the
      values `gen_range` returns, in order; the model stops when they run
      out. The loop starts from `run_simon`'s `running` and `color_sequence`,
      still set and empty. */
  method PlayGame(ge: GameElements, draws: seq<int>, running0: bool, colorSequence0: seq<ChosenButton>)
    returns (running: bool, colorSequence: seq<ChosenButton>, t: seq<Event>)
    requires ge.Valid()
    requires running0 && colorSequence0 == []
    modifies ge.greenButton`className, ge.redButton`className
    modifies ge.yellowButton`className, ge.blueButton`className
    ensures colorSequence == Game(Drawn(draws))
    ensures running <==> BlueButton !in Drawn(draws)
    ensures t == Rounds(colorSequence)
    ensures ge.Names() == Run(old(ge.Names()), t)
  {
    running := running0;
    colorSequence := colorSequence0;
    t := [];
    while running && |colorSequence| < |draws|
      invariant |colorSequence| <= |draws| && colorSequence == Drawn(draws)[..|colorSequence|]
      invariant running <==> BlueButton !in colorSequence
      invariant forall i :: 0 <= i < |colorSequence| - 1 ==> colorSequence[i] != BlueButton
      invariant t == Rounds(colorSequence)
      invariant ge.Names() == Run(old(ge.Names()), t)
      decreases |draws| - |colorSequence|
    {
      ghost var before := colorSequence;
      colorSequence := colorSequence + [Sample(draws[|colorSequence|])];
      var round;
      round, running := PlayRound(ge, colorSequence, running);
      RunAppend(old(ge.Names()), t, round);
      PushDrawn(draws, before);
      RoundsSnoc(before, colorSequence[|before|]);
      t := t + round;
    }
    GameIsFirstBlue(Drawn(draws), colorSequence);
  }

  /** Pushing one more colour adds one round, over the longer sequence. */
  lemma RoundsSnoc(cs: seq<ChosenButton>, b: ChosenButton)
    ensures Rounds(cs + [b]) == Rounds(cs) + Replay(cs + [b])
  {
  }

  /** Pushing the next draw's button extends the drawn prefix by one. */
  lemma PushDrawn(draws: seq<int>, cs: seq<ChosenButton>)
    requires |cs| < |draws| && cs == Drawn(draws)[..|cs|]
    ensures cs + [Sample(draws[|cs|])] == Drawn(draws)[..|cs| + 1]
  {
    DrawnPrefix(draws, |cs| + 1);
    DrawnPrefix(draws, |cs|);
    DrawnAppend(draws[..|cs|], [draws[|cs|]]);
    assert draws[..|cs| + 1] == draws[..|cs|] + [draws[|cs|]];
  }

  /** `run_simon`: binds the page, shows the score, plays the intro, then
      plays the game. Returns, in `scores`, the score text before the first
      event and after each one: the initial text is shown from the first
      event on and is never replaced. */
  method RunSimon(doc: Document, draws: seq<int>)
    returns (running: bool, colorSequence: seq<ChosenButton>, log: seq<Event>, ghost scores: seq<string>)
    requires Bindable(doc)
    modifies (doc[GreenId] as Element)`className, (doc[RedId] as Element)`className
    modifies (doc[YellowId] as Element)`className, (doc[BlueId] as Element)`className
    modifies (doc[ScoreId] as Element)`textContent
    ensures colorSequence == Game(Drawn(draws))
    ensures running <==> BlueButton !in Drawn(draws)
    ensures log == [SetScore(ScoreText(0))] + IntroTrace + Rounds(colorSequence)
    ensures PanelNames(doc) == Run(old(PanelNames(doc)), log)
    ensures ScoreStepwise(log, scores) && scores[0] == old(doc[ScoreId].textContent) && scores[|log|] == doc[ScoreId].textContent
    ensures forall k :: 1 <= k <= |log| ==> scores[k] == ScoreText(0)
  {
    running := true;
    colorSequence := [];
    var ge := new GameElements(doc);
    ghost var start := ge.Names();
    ghost var before := ge.score.textContent;
    ge.score.textContent := ScoreText(|colorSequence|);
    log := [SetScore(ScoreText(|colorSequence|))];
    ghost var written := ge.score.textContent;
    assert Run(start, log) == start by {
      assert log[1..] == [];
    }

    var intro;
    ghost var introStates;
    intro, introStates := RunGameIntro(ge);
    ghost var afterIntro := ge.score.textContent;
    RunAppend(start, log, intro);
    log := log + intro;

    var rounds;
    running, colorSequence, rounds := PlayGame(ge, draws, running, colorSequence);
    ghost var afterGame := ge.score.textContent;
    RunAppend(start, log, rounds);
    log := log + rounds;
    scores := ScoreRecord(colorSequence, before, written, afterIntro, afterGame);
    GameScoreRecord(colorSequence, before, written, afterIntro, afterGame);
  }

  /** The score texts of a game over `cs` read at four points: before the
      first event, after the score update, through the intro and through the
      rounds. */
  ghost function ScoreRecord(cs: seq<ChosenButton>, before: string, written: string, afterIntro: string, afterGame: string): seq<string> {
    [before, written] + seq(|IntroTrace|, _ => afterIntro) + seq(|Rounds(cs)|, _ => afterGame)
  }

  /** The score texts read before `run_simon`'s first event, after its score
      update, after the intro and after the game form a record of its log
      when the update wrote the text for 0 and nothing changed it since:
      from the first event on, the score reads that text at every point. */
  lemma GameScoreRecord(cs: seq<ChosenButton>, before: string, written: string, afterIntro: string, afterGame: string)
    requires written == ScoreText(0) && afterIntro == written && afterGame == afterIntro
    ensures ScoreStepwise([SetScore(ScoreText(0))] + IntroTrace + Rounds(cs), ScoreRecord(cs, before, written, afterIntro, afterGame))
    ensures forall k :: 1 <= k <= |[SetScore(ScoreText(0))] + IntroTrace + Rounds(cs)| ==>
      ScoreRecord(cs, before, written, afterIntro, afterGame)[k] == ScoreText(0)
  {
    var head := [SetScore(ScoreText(0))];
    assert ScoreStepwise(head, [before, written]);
    IntroCounts();
    ScoreStepwiseUntouched(head, [before, written], IntroTrace, afterIntro);
    RoundsLeaveScore(cs);
    ScoreStepwiseUntouched(head + IntroTrace, [before, written] + seq(|IntroTrace|, _ => afterIntro), Rounds(cs), afterGame);
    var log := head + IntroTrace + Rounds(cs);
    var scores := ScoreRecord(cs, before, written, afterIntro, afterGame);
    ScoreSetOnce(cs);
    forall k | 1 <= k <= |log| ensures scores[k] == ScoreText(0) {
      ScoreKept(log, scores, k);
    }
  }

  /** The whole game, from marker-free class names, leaves every panel as it
      was: each `set_active` is undone by a `set_inactive`. */
  lemma GameRestores(names: ClassNames, cs: seq<ChosenButton>)
    requires MarkerFree(names)
    ensures Run(names, [SetScore(ScoreText(0))] + IntroTrace + Rounds(cs)) == names
  {
    var s := [SetScore(ScoreText(0))];
    assert Run(names, s) == names by {
      assert s[1..] == [];
    }
    RunAppend(names, s, IntroTrace);
    IntroRestores(names);
    RunAppend(names, s + IntroTrace, Rounds(cs));
    RoundsRestore(names, cs);
  }

  /** The score is set once, first, and never again. */
  lemma ScoreSetOnce(cs: seq<ChosenButton>)
    ensures forall i :: 0 < i < |[SetScore(ScoreText(0))] + IntroTrace + Rounds(cs)| ==>
      !([SetScore(ScoreText(0))] + IntroTrace + Rounds(cs))[i].SetScore?
  {
    var log := [SetScore(ScoreText(0))] + IntroTrace + Rounds(cs);
    IntroCounts();
    RoundsLeaveScore(cs);
    forall i | 0 < i < |log| ensures !log[i].SetScore? {
      if i <= |IntroTrace| {
        assert log[i] == IntroTrace[i - 1];
      } else {
        assert log[i] == Rounds(cs)[i - 1 - |IntroTrace|];
      }
    }
  }

  /** A first draw of 3 gives a game of one round with one flash of Blue. */
  lemma BlueFirstEndsAfterOneRound(draws: seq<int>)
    requires |draws| > 0 && draws[0] == 3
    ensures Game(Drawn(draws)) == [BlueButton]
    ensures Rounds(Game(Drawn(draws))) == Step(Blue)
  {
  }

  /** Draws 0, 1, 3 give three rounds, the second replaying Green and Red and
      the third Green, Red and Blue; the game then ends. */
  lemma GreenRedBlueScenario(draws: seq<int>)
    requires |draws| >= 3 && draws[0] == 0 && draws[1] == 1 && draws[2] == 3
    ensures Game(Drawn(draws)) == [GreenButton, RedButton, BlueButton]
    ensures Rounds(Game(Drawn(draws))) == Replay([GreenButton]) + Replay([GreenButton, RedButton]) + Replay([GreenButton, RedButton, BlueButton])
    ensures Replay([GreenButton, RedButton]) == Step(Green) + Step(Red)
    ensures Replay([GreenButton, RedButton, BlueButton]) == Step(Green) + Step(Red) + Step(Blue)
  {
    var bs := Drawn(draws);
    var cs := [GreenButton, RedButton, BlueButton];
    GameIsFirstBlue(bs, cs);
    assert cs[..2] == [GreenButton, RedButton];
    assert cs[..2][..1] == [GreenButton];
    assert cs[..2][..1][..0] == [];
    assert Panels(cs) == [Green, Red, Blue];
    assert Panels(cs[..2]) == [Green, Red];
    assert Panels(cs[..1]) == [Green];
    assert [Green, Red, Blue][..2] == [Green, Red];
    assert [Green, Red][..1] == [Green];
    assert [Green][..0] == [];
  }
}
