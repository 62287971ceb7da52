/**
 * The Python self-play driver for a series of games (`SelfPlayer`,
 * cython/selfplayer.py): the turn loop of `play`, which hands the side to
 * play's answers to the game until an evaluation is needed or the game is
 * over, the move to the next game of the series, and `get_samples`, which
 * joins the samples of every game with their value labels.
 *
 * The two searchers and the game are not part of this module: each answer
 * of the side to play is an input `Reply`, carrying what the game showed
 * for that move (its state vector before the move, its outcome after it).
 */
module SeriesPlay {
  import opened Common
  import SP = SelfPlay

  type Vector = seq<real>

  /**
   * One answer of `choose_move`: a move, with its probability label, the
   * game's vector before the move and the game's outcome after it; or a
   * request for an evaluation.
   */
  datatype Reply =
    | Moved(probs: Vector, vector: Vector, outcome: Option<int>)
    | Evaluate(request: Vector)

  /** What `play` returns: zeros(70) once the series is exhausted, ones(70) when a game ends, or the request. */
  datatype Signal = SeriesDone | GameDone | Request(batch: Vector)

  /** The loop of `play` stops at this answer: an evaluation is needed or the game is over. */
  predicate Stops(r: Reply)
  {
    r.Evaluate? || r.outcome.Some?
  }

  /** Some answer stops the loop. */
  predicate Finishes(rs: seq<Reply>)
  {
    exists k | 0 <= k < |rs| :: Stops(rs[k])
  }

  /** The first answer that stops the loop. */
  function FirstStop(rs: seq<Reply>): (k: nat)
    requires Finishes(rs)
    ensures k < |rs| && Stops(rs[k])
    ensures forall j | 0 <= j < k :: !Stops(rs[j])
  {
    if Stops(rs[0]) then 0
    else
      assert Finishes(rs[1..]) by {
        var k :| 0 <= k < |rs| && Stops(rs[k]);
        assert rs[1..][k - 1] == rs[k];
      }
      var k := FirstStop(rs[1..]);
      assert forall j | 1 <= j < k + 1 :: rs[j] == rs[1..][j - 1];
      k + 1
  }

  /** The moves the loop plays: the answers before the first stop, and that one too if it is a move. */
  function Consumed(rs: seq<Reply>): (ms: seq<Reply>)
    requires Finishes(rs)
    ensures forall j | 0 <= j < |ms| :: ms[j].Moved?
    ensures forall j | 0 <= j < |ms| - 1 :: ms[j].outcome.None?
    ensures rs[FirstStop(rs)].Moved? <==> |ms| == FirstStop(rs) + 1
  {
    var k := FirstStop(rs);
    if rs[k].Evaluate? then rs[..k] else rs[..k + 1]
  }

  /** The state vectors of a run of moves, in order. */
  function Vectors(ms: seq<Reply>): (vs: seq<Vector>)
    requires forall j | 0 <= j < |ms| :: ms[j].Moved?
    ensures |vs| == |ms|
  {
    if ms == [] then [] else Vectors(ms[..|ms| - 1]) + [ms[|ms| - 1].vector]
  }

  /** The probability labels of a run of moves, in order. */
  function ProbLabels(ms: seq<Reply>): (ps: seq<Vector>)
    requires forall j | 0 <= j < |ms| :: ms[j].Moved?
    ensures |ps| == |ms|
  {
    if ms == [] then [] else ProbLabels(ms[..|ms| - 1]) + [ms[|ms| - 1].probs]
  }

  /** Move j's vector and probability label are entry j of the run's lists. */
  lemma {:induction false} MovesAt(ms: seq<Reply>, j: int)
    requires forall i | 0 <= i < |ms| :: ms[i].Moved?
    requires 0 <= j < |ms|
    ensures Vectors(ms)[j] == ms[j].vector && ProbLabels(ms)[j] == ms[j].probs
  {
    if j < |ms| - 1 {
      MovesAt(ms[..|ms| - 1], j);
    }
  }

  /** One more move of the run: its vector and label follow the others. */
  lemma MovesSnoc(rs: seq<Reply>, n: nat)
    requires n < |rs| && forall j | 0 <= j <= n :: rs[j].Moved?
    ensures Vectors(rs[..n + 1]) == Vectors(rs[..n]) + [rs[n].vector]
    ensures ProbLabels(rs[..n + 1]) == ProbLabels(rs[..n]) + [rs[n].probs]
  {
    assert rs[..n + 1][..n] == rs[..n];
  }

  lemma PairedUpdate(s: seq<seq<Vector>>, l: seq<seq<Vector>>, g: int, a: seq<Vector>, b: seq<Vector>)
    requires Paired(s, l) && 0 <= g < |s| && |a| == |b|
    ensures Paired(s[g := a], l[g := b])
  {
  }

  lemma UpdateTwice<T>(s: seq<seq<T>>, g: int, a: seq<T>, x: T)
    requires 0 <= g < |s|
    ensures s[g := a][g := s[g := a][g] + [x]] == s[g := a + [x]]
  {
  }

  /** The side to play after n moves from side t. */
  function Turned(t: int, n: nat): int
  {
    if n == 0 then t else 1 - Turned(t, n - 1)
  }

  /** Sides alternate: after n moves it is t's turn again exactly when n is even. */
  lemma {:induction false} TurnedValue(t: int, n: nat)
    requires t == 0 || t == 1
    ensures Turned(t, n) == (t + n) % 2
  {
    if n > 0 {
      TurnedValue(t, n - 1);
    }
  }

  /** The fields the loop of `play` changes. */
  datatype Lists = Lists(samples: seq<seq<Vector>>, probLabels: seq<seq<Vector>>, toPlay: int)

  /**
   * The loop of `play` after `done` moves from the lists `s0`, `l0` and the
   * side `t0`: game g has gained their vectors and probability labels.
   */
  ghost predicate Moving(s0: seq<seq<Vector>>, l0: seq<seq<Vector>>, g: int, t0: int, now: Lists,
                         replies: seq<Reply>, done: nat)
  {
    0 <= g < |s0| && |s0| == |l0| && done <= |replies| && (forall j | 0 <= j < done :: replies[j].Moved?) &&
    now.samples == s0[g := s0[g] + Vectors(replies[..done])] &&
    now.probLabels == l0[g := l0[g] + ProbLabels(replies[..done])] &&
    now.toPlay == Turned(t0, done)
  }

  lemma MovingStart(s0: seq<seq<Vector>>, l0: seq<seq<Vector>>, g: int, t0: int, replies: seq<Reply>)
    requires 0 <= g < |s0| && |s0| == |l0|
    ensures Moving(s0, l0, g, t0, Lists(s0, l0, t0), replies, 0)
  {
    assert replies[..0] == [];
    assert s0[g] + [] == s0[g] && l0[g] + [] == l0[g];
    assert s0[g := s0[g]] == s0 && l0[g := l0[g]] == l0;
  }

  lemma MovingStep(s0: seq<seq<Vector>>, l0: seq<seq<Vector>>, g: int, t0: int, before: Lists, after: Lists,
                   replies: seq<Reply>, done: nat)
    requires Moving(s0, l0, g, t0, before, replies, done) && done < |replies| && replies[done].Moved?
    requires after.samples == before.samples[g := before.samples[g] + [replies[done].vector]]
    requires after.probLabels == before.probLabels[g := before.probLabels[g] + [replies[done].probs]]
    requires after.toPlay == 1 - before.toPlay
    ensures Moving(s0, l0, g, t0, after, replies, done + 1)
  {
    var r := replies[done];
    MovesSnoc(replies, done);
    UpdateTwice(s0, g, s0[g] + Vectors(replies[..done]), r.vector);
    UpdateTwice(l0, g, l0[g] + ProbLabels(replies[..done]), r.probs);
    assert s0[g] + Vectors(replies[..done + 1]) == s0[g] + Vectors(replies[..done]) + [r.vector];
    assert l0[g] + ProbLabels(replies[..done + 1]) == l0[g] + ProbLabels(replies[..done]) + [r.probs];
  }

  // ---------------------------------------------------------------------
  // Value labels

  /** (-1) ** e. */
  function SignPow(e: nat): int
  {
    if e == 0 then 1 else -SignPow(e - 1)
  }

  lemma {:induction false} SignPowValue(e: nat)
    ensures SignPow(e) == if e % 2 == 0 then 1 else -1
  {
    if e > 0 {
      SignPowValue(e - 1);
    }
  }

  /** The value labels of one game of n samples: 0 throughout a draw, else (-1) ** (n - j - 1) for sample j. */
  function GameLabels(n: nat, outcome: int): (ls: seq<int>)
    ensures |ls| == n
  {
    if outcome == 0 then seq(n, j => 0)
    else seq(n, j requires 0 <= j < n => SignPow(n - j - 1))
  }

  /**
   * The labels in closed form: the last sample of a decisive game gets +1
   * and the labels alternate going back.  They agree with the labels the
   * current engine writes (SelfPlay.Label), which count from the end.
   */
  lemma GameLabelsValue(n: nat, outcome: int, j: int)
    requires 0 <= j < n
    ensures outcome == 0 ==> GameLabels(n, outcome)[j] == 0
    ensures outcome != 0 ==> GameLabels(n, outcome)[j] == if (n - j - 1) % 2 == 0 then 1 else -1
    ensures GameLabels(n, outcome)[j] as real == SP.Label(outcome == 0, n - 1 - j)
  {
    SignPowValue(n - j - 1);
    SP.LabelValue(outcome == 0, n - 1 - j);
  }

  // ---------------------------------------------------------------------
  // The joined samples

  /** What `get_samples` returns: positions, value labels and probability labels. */
  datatype Batch = Batch(states: seq<Vector>, labels: seq<int>, probs: seq<Vector>)

  /** Per-game lists of equal length. */
  predicate Paired(samples: seq<seq<Vector>>, probs: seq<seq<Vector>>)
  {
    |samples| == |probs| && forall i | 0 <= i < |samples| :: |samples[i]| == |probs[i]|
  }

  /** The first n games joined in order: their samples, labels and probability labels. */
  function Joined(samples: seq<seq<Vector>>, probs: seq<seq<Vector>>, outcomes: seq<int>, n: nat): (b: Batch)
    requires Paired(samples, probs) && n <= |samples| && n <= |outcomes|
    ensures |b.states| == |b.labels| == |b.probs|
  {
    if n == 0 then Batch([], [], [])
    else
      var b := Joined(samples, probs, outcomes, n - 1);
      Batch(b.states + samples[n - 1], b.labels + GameLabels(|samples[n - 1]|, outcomes[n - 1]), b.probs + probs[n - 1])
  }

  /** Where game i starts in the joined lists. */
  function Start(samples: seq<seq<Vector>>, i: nat): (p: nat)
    requires i <= |samples|
  {
    if i == 0 then 0 else Start(samples, i - 1) + |samples[i - 1]|
  }

  /**
   * Sample j of game i sits at Start(i) + j of the joined lists, with its
   * own probability label and the label of its game.
   */
  lemma {:induction false} JoinedAt(samples: seq<seq<Vector>>, probs: seq<seq<Vector>>, outcomes: seq<int>,
                                    n: nat, i: int, j: int)
    requires Paired(samples, probs) && n <= |samples| && n <= |outcomes|
    requires 0 <= i < n && 0 <= j < |samples[i]|
    ensures Start(samples, i) + j < |Joined(samples, probs, outcomes, n).states|
    ensures Joined(samples, probs, outcomes, n).states[Start(samples, i) + j] == samples[i][j]
    ensures Joined(samples, probs, outcomes, n).probs[Start(samples, i) + j] == probs[i][j]
    ensures Joined(samples, probs, outcomes, n).labels[Start(samples, i) + j] == GameLabels(|samples[i]|, outcomes[i])[j]
  {
    var b := Joined(samples, probs, outcomes, n - 1);
    var c := Joined(samples, probs, outcomes, n);
    var ls := GameLabels(|samples[n - 1]|, outcomes[n - 1]);
    var p := Start(samples, i) + j;
    assert c.states == b.states + samples[n - 1];
    assert c.probs == b.probs + probs[n - 1];
    assert c.labels == b.labels + ls;
    if i < n - 1 {
      JoinedAt(samples, probs, outcomes, n - 1, i, j);
      assert c.states[p] == b.states[p] && c.probs[p] == b.probs[p] && c.labels[p] == b.labels[p];
    } else {
      JoinedLength(samples, probs, outcomes, n - 1);
      assert p == |b.states| + j;
      assert c.states[p] == samples[i][j] && c.probs[p] == probs[i][j] && c.labels[p] == ls[j];
    }
  }

  /** The joined lists are as long as the games' samples together. */
  lemma {:induction false} JoinedLength(samples: seq<seq<Vector>>, probs: seq<seq<Vector>>, outcomes: seq<int>, n: nat)
    requires Paired(samples, probs) && n <= |samples| && n <= |outcomes|
    ensures |Joined(samples, probs, outcomes, n).states| == Start(samples, n)
  {
    if n > 0 {
      JoinedLength(samples, probs, outcomes, n - 1);
    }
  }

  // ---------------------------------------------------------------------
  // The driver

  class SeriesPlayer {
    const seriesLength: nat
    var gamesPlayed: nat
    /** `game.outcome`: None while the current game goes on. */
    var outcome: Option<int>
    /** `game.to_play`. */
    var toPlay: int
    var samples: seq<seq<Vector>>
    var probLabels: seq<seq<Vector>>
    var gameOutcomes: seq<int>

    /**
     * One list per game of the series, of samples as many as probability
     * labels; every finished game has its outcome recorded.
     */
    ghost predicate Valid()
      reads this
    {
      gamesPlayed < seriesLength && |samples| == seriesLength && Paired(samples, probLabels) &&
      (toPlay == 0 || toPlay == 1) &&
      |gameOutcomes| == gamesPlayed + (if outcome.Some? then 1 else 0) &&
      (outcome.Some? ==> gameOutcomes[gamesPlayed] == outcome.value)
    }

    /** `__init__`: a fresh game and one empty list per game of the series. */
    constructor (seriesLength: nat)
      requires seriesLength >= 1
      ensures Valid() && this.seriesLength == seriesLength && gamesPlayed == 0 && outcome == None && toPlay == 0
      ensures samples == seq(seriesLength, i => []) && probLabels == samples && gameOutcomes == []
    {
      this.seriesLength := seriesLength;
      gamesPlayed := 0;
      outcome := None;
      toPlay := 0;
      samples := seq(seriesLength, i => []);
      probLabels := seq(seriesLength, i => []);
      gameOutcomes := [];
    }

    /**
     * `play`: after a finished game, start the next one of the series or
     * report the series exhausted; then play the side to play's moves,
     * recording one sample and probability label per move, until an
     * evaluation is needed or the game ends (its outcome is then recorded).
     */
    method Play(replies: seq<Reply>) returns (signal: Signal)
      requires Valid() && Finishes(replies)
      modifies this
      ensures Valid()
      ensures signal == SeriesDone <==> old(outcome).Some? && old(gamesPlayed) + 1 >= seriesLength
      ensures signal == SeriesDone ==>
        gamesPlayed == old(gamesPlayed) && outcome == old(outcome) && toPlay == old(toPlay) &&
        samples == old(samples) && probLabels == old(probLabels) && gameOutcomes == old(gameOutcomes)
      ensures signal != SeriesDone ==>
        var k := FirstStop(replies);
        var renewed := old(outcome).Some?;
        gamesPlayed == old(gamesPlayed) + (if renewed then 1 else 0) &&
        Moving(old(samples), old(probLabels), gamesPlayed, if renewed then 0 else old(toPlay), Snap(),
               replies, |Consumed(replies)|) &&
        (replies[k].Evaluate? ==> signal == Request(replies[k].request) && outcome == None &&
                                  gameOutcomes == old(gameOutcomes)) &&
        (replies[k].Moved? ==> signal == GameDone && outcome == replies[k].outcome &&
                               gameOutcomes == old(gameOutcomes) + [replies[k].outcome.value])
    {
      if outcome.Some? {
        if gamesPlayed + 1 < seriesLength {
          gamesPlayed := gamesPlayed + 1;
          outcome := None;
          toPlay := 0;
        } else {
          return SeriesDone;
        }
      }
      var res;
      ghost var done;
      ghost var t := toPlay;
      res, done := PlayMoves(replies);
      TurnedValue(t, done);
      if outcome.Some? {
        gameOutcomes := gameOutcomes + [outcome.value];
        return GameDone;
      }
      return Request(res.request);
    }

    /**
     * The loop of `play`: the side to play's moves go to the game, one
     * sample and probability label each, until an evaluation is needed or
     * the game is over.  `done` moves were played; `res` is the last answer.
     */
    method PlayMoves(replies: seq<Reply>) returns (res: Reply, ghost done: nat)
      requires outcome.None? && Finishes(replies) && gamesPlayed < |samples| && Paired(samples, probLabels)
      modifies this
      ensures gamesPlayed == old(gamesPlayed) && gameOutcomes == old(gameOutcomes) && Paired(samples, probLabels)
      ensures res == replies[FirstStop(replies)] && done == |Consumed(replies)| && done <= |replies|
      ensures Moving(old(samples), old(probLabels), gamesPlayed, old(toPlay), Snap(), replies, done)
      ensures outcome == if res.Moved? then res.outcome else None
    {
      ghost var k := FirstStop(replies);
      ghost var g, t0 := gamesPlayed, toPlay;
      ghost var s0, l0 := samples, probLabels;
      done := 0;
      res := replies[0];
      var used := 1;
      MovingStart(s0, l0, g, t0, replies);
      while res.Moved? && outcome.None?
        invariant Moving(s0, l0, g, t0, Snap(), replies, done)
        invariant 1 <= used <= k + 1 && res == replies[used - 1]
        invariant gamesPlayed == g && gameOutcomes == old(gameOutcomes)
        invariant outcome.None? ==> done == used - 1 && forall j | 0 <= j < used - 1 :: !Stops(replies[j])
        invariant outcome.Some? ==> done == used && used - 1 == k && res.Moved? && outcome == res.outcome
        decreases k + 1 - used, if outcome.None? then 1 else 0
      {
        ghost var before := Snap();
        Record(res);
        MovingStep(s0, l0, g, t0, before, Snap(), replies, done);
        done := done + 1;
        if outcome.None? {
          res := replies[used];
          used := used + 1;
        }
      }
      PairedUpdate(s0, l0, g, s0[g] + Vectors(replies[..done]), l0[g] + ProbLabels(replies[..done]));
    }

    ghost function Snap(): Lists
      reads this
    {
      Lists(samples, probLabels, toPlay)
    }

    /** One pass of the loop of `play`: the move's sample and label go to the current game, which moves on. */
    method Record(r: Reply)
      requires r.Moved? && gamesPlayed < |samples| && gamesPlayed < |probLabels|
      modifies this
      ensures gamesPlayed == old(gamesPlayed) && gameOutcomes == old(gameOutcomes)
      ensures samples == old(samples)[gamesPlayed := old(samples)[gamesPlayed] + [r.vector]]
      ensures probLabels == old(probLabels)[gamesPlayed := old(probLabels)[gamesPlayed] + [r.probs]]
      ensures toPlay == 1 - old(toPlay) && outcome == r.outcome
    {
      samples := samples[gamesPlayed := samples[gamesPlayed] + [r.vector]];
      probLabels := probLabels[gamesPlayed := probLabels[gamesPlayed] + [r.probs]];
      toPlay := 1 - toPlay;
      outcome := r.outcome;
    }

    /**
     * `get_samples`: nothing while games of the series remain; otherwise
     * every game's samples and probability labels in order, with the value
     * labels of its outcome.  None where the source raises: a game whose
     * outcome is not recorded yet.
     */
    method GetSamples() returns (r: Option<Batch>)
      requires Valid()
      ensures gamesPlayed + 1 < seriesLength ==> r == Some(Batch([], [], []))
      ensures gamesPlayed + 1 >= seriesLength ==>
        (r.Some? <==> |gameOutcomes| >= seriesLength) &&
        (r.Some? ==> r.value == Joined(samples, probLabels, gameOutcomes, seriesLength))
    {
      if gamesPlayed + 1 < seriesLength {
        return Some(Batch([], [], []));
      }
      var states: seq<Vector> := [];
      var labels: seq<int> := [];
      var probs: seq<Vector> := [];
      var i := 0;
      while i < seriesLength
        invariant 0 <= i <= seriesLength && i <= |gameOutcomes|
        invariant Batch(states, labels, probs) == Joined(samples, probLabels, gameOutcomes, i)
      {
        var game := samples[i];
        states := states + game;
        probs := probs + probLabels[i];
        if i >= |gameOutcomes| {
          return None;
        }
        if gameOutcomes[i] == 0 {
          labels := labels + seq(|game|, j => 0);
        } else {
          labels := labels + seq(|game|, j requires 0 <= j < |game| => SignPow(|game| - j - 1));
        }
        i := i + 1;
      }
      return Some(Batch(states, labels, probs));
    }
  }
}
