/** The round state machine of src/FourLeafCloverGame.jsx (lines 204–213): starting a round, reshuffling,
    and clicking a clover. Clock readings are passed in as `now`. */
module Round {
  import opened Placement

  datatype Option<T> = None | Some(value: T)

  /** `status`: "idle", "playing" or "success". */
  datatype Status = Idle | Playing | Success

  /** The game's state: status, round counter (it triggers a new layout),
      start time, elapsed and best times, the current target's id and the
      key that replays the board's shake animation. */
  datatype Game = Game(
    status: Status,
    round: nat,
    startAt: int,
    elapsedMs: int,
    bestMs: Option<int>,
    targetId: Option<nat>,
    shakeKey: int)

  /** The state before anything has happened (lines 153–159). */
  const Initial := Game(Idle, 0, 0, 0, None, None, 0)

  /** What can happen to the game. */
  datatype Event =
    | StartPressed(now: int)            // `start`, new-game and retry buttons
    | ReshufflePressed                  // `reshuffle`
    | Clicked(id: nat, now: int)        // `clickClover`
    | BoardMeasured(width: real, height: real, now: int)  // line 204
    | ModalClosed                       // close button, line 286
    | LaidOut(layout: Layout)           // line 201, the layout's target id

  /** `Math.min(a, b)` on whole milliseconds. */
  function Min(a: int, b: int): (m: int)
    ensures m <= a && m <= b && (m == a || m == b)
  {
    if a <= b then a else b
  }

  /** Line 206: a new round that is being played from now on. */
  function Start(g: Game, now: int): (g': Game)
    ensures g'.status == Playing && g'.round == g.round + 1
    ensures g'.startAt == now && g'.elapsedMs == 0
    ensures g'.bestMs == g.bestMs && g'.targetId == g.targetId && g'.shakeKey == g.shakeKey
  {
    g.(status := Playing, startAt := now, elapsedMs := 0, round := g.round + 1)
  }

  /** Line 207: only the round counter moves (which re-runs the layout). */
  function Reshuffle(g: Game): (g': Game)
    ensures g'.round == g.round + 1
    ensures g' == g.(round := g'.round)
  {
    g.(round := g.round + 1)
  }

  /** Lines 210–214. The status checked after `start()` is the one captured
      before it, so a click while idle starts a round and nothing more. While
      playing, the target's id ends the round with the time spent and keeps
      the smaller of that and the best so far; any other id only shakes the
      board. After success, clicks do nothing. */
  function Click(g: Game, id: nat, now: int): (g': Game)
    ensures g.status == Idle ==> g' == Start(g, now)
    ensures g'.status == Success <==>
              g.status == Success || (g.status == Playing && g.targetId == Some(id))
    ensures g.status == Playing && g.targetId == Some(id) ==>
              && g'.elapsedMs == now - g.startAt
              && g'.bestMs.Some?
              && g'.bestMs.value <= now - g.startAt
              && (g.bestMs.Some? ==> g'.bestMs.value <= g.bestMs.value)
              && (g'.bestMs.value == now - g.startAt || g'.bestMs == g.bestMs)
    ensures g.status == Playing && g.targetId == Some(id) ==>
              g' == g.(elapsedMs := now - g.startAt, status := Success, bestMs := g'.bestMs)
    ensures g.status != Idle ==> g'.round == g.round && g'.startAt == g.startAt
    ensures g.status == Playing && g.targetId != Some(id) ==> g' == g.(shakeKey := now)
    ensures g.status == Success ==> g' == g
  {
    if g.status == Idle then Start(g, now)
    else if g.status != Playing then g
    else if g.targetId == Some(id) then
      var spent := now - g.startAt;
      var best := if g.bestMs.None? then spent else Min(g.bestMs.value, spent);
      g.(elapsedMs := spent, status := Success, bestMs := Some(best))
    else g.(shakeKey := now)
  }

  /** One event applied to the game. The round moves by at most one, only a
      new layout changes the target, and only a click changes the best time. */
  function Step(g: Game, e: Event): (g': Game)
    ensures g'.round == g.round || g'.round == g.round + 1
    ensures !e.LaidOut? ==> g'.targetId == g.targetId
    ensures !e.Clicked? ==> g'.bestMs == g.bestMs
    ensures e.ModalClosed? ==> g'.status == Idle
  {
    match e
    case StartPressed(now) => Start(g, now)
    case ReshufflePressed => Reshuffle(g)
    case Clicked(id, now) => Click(g, id, now)
    case BoardMeasured(w, h, now) =>
      if g.status == Idle && w > 0.0 && h > 0.0 then Start(g, now) else g
    case ModalClosed => g.(status := Idle)
    case LaidOut(l) => g.(targetId := Some(l.targetId))
  }

  /** Events applied in order. */
  function Run(g: Game, es: seq<Event>): Game
    decreases |es|
  {
    if |es| == 0 then g else Run(Step(g, es[0]), es[1..])
  }

  /** A finished round has a best time no worse than its own time, and a
      round being played or won has been started at least once. */
  predicate Consistent(g: Game) {
    && (g.status == Success ==> g.bestMs.Some? && g.bestMs.value <= g.elapsedMs)
    && (g.status != Idle ==> g.round >= 1)
  }

  /** The game starts out consistent. */
  lemma InitialConsistent()
    ensures Consistent(Initial)
  {
  }

  /** Every event keeps the game consistent. */
  lemma StepConsistent(g: Game, e: Event)
    requires Consistent(g)
    ensures Consistent(Step(g, e))
  {
  }

  /** Any sequence of events keeps the game consistent. */
  lemma {:induction false} RunConsistent(g: Game, es: seq<Event>)
    requires Consistent(g)
    ensures Consistent(Run(g, es))
    decreases |es|
  {
    if |es| > 0 {
      StepConsistent(g, es[0]);
      RunConsistent(Step(g, es[0]), es[1..]);
    }
  }

  /** Once recorded, the best time never gets worse, whatever happens. */
  lemma {:induction false} BestNeverWorsens(g: Game, es: seq<Event>)
    requires g.bestMs.Some?
    ensures Run(g, es).bestMs.Some?
    ensures Run(g, es).bestMs.value <= g.bestMs.value
    decreases |es|
  {
    if |es| > 0 {
      var g1 := Step(g, es[0]);
      assert g1.bestMs.Some? && g1.bestMs.value <= g.bestMs.value;
      BestNeverWorsens(g1, es[1..]);
    }
  }

  /** The round counter never goes down. */
  lemma {:induction false} RoundNeverDecreases(g: Game, es: seq<Event>)
    ensures Run(g, es).round >= g.round
    decreases |es|
  {
    if |es| > 0 {
      RoundNeverDecreases(Step(g, es[0]), es[1..]);
    }
  }

  /** Success is reached only by clicking the target while playing. */
  lemma SuccessNeedsHit(g: Game, e: Event)
    requires g.status != Success
    requires Step(g, e).status == Success
    ensures g.status == Playing
    ensures e.Clicked? && g.targetId == Some(e.id)
  {
  }

  /** After a layout is installed, a click during play succeeds exactly when
      it lands on the four-leaf clover: the id test stands for the flag. */
  lemma HitIsFourLeaf(g: Game, l: Layout, k: nat, now: int)
    requires g.status == Playing
    requires k < |l.items|
    requires forall j :: 0 <= j < |l.items| ==> l.items[j].id == j
    requires forall j :: 0 <= j < |l.items| ==> (l.items[j].isFour <==> j == l.targetId)
    ensures Click(Step(g, LaidOut(l)), l.items[k].id, now).status == Success <==> l.items[k].isFour
  {
  }
}
