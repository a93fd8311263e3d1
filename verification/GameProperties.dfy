/** What the turn loop guarantees: alternation, who is declared winner,
    termination under legal moves, and a worked game. */
module GameProperties {
  import opened Constants
  import opened Game
  import opened Lobby
  import opened ComputerPlayers

  /** The seat that makes move k (counted from 0) of a game begun by start. */
  function Mover(start: int, k: nat): int {
    if k % 2 == 0 then start else 1 - start
  }

  predicate WinNoticesSucceed(turns: seq<Turn>) {
    forall k :: 0 <= k < |turns| ==> !turns[k].winNoticeFails
  }

  /** Seats alternate: while the game runs the seat to move after k turns is
      Mover(start, k); once it is won, the index rests on the seat that made
      the last move, which is told it won, while the other is told it lost
      (humans only). */
  lemma {:induction false} TurnsAlternate(s: State, human: seq<bool>, turns: seq<Turn>)
    requires |human| == 2 && IsSeat(s.player) && !s.won && WinNoticesSucceed(turns)
    ensures var r := Play(s, human, turns);
      (!r.0.won ==> r.0.player == Mover(s.player, r.1) && r.2 == []) &&
      (r.0.won ==> r.1 >= 1 && r.0.player == Mover(s.player, r.1 - 1) &&
                   r.2 == EndNotices(human, r.0.player))
    decreases |turns|
  {
    if turns != [] {
      TailSucceeds(turns);
      var step := Step(s, human, turns[0]);
      var rest := Play(step.0, human, turns[1..]);
      assert Play(s, human, turns) == (rest.0, rest.1 + 1, step.1 + rest.2);
      if step.0.won {
        assert rest == (step.0, 0, []);
        assert step.1 + [] == step.1;
      } else {
        TurnsAlternate(step.0, human, turns[1..]);
        assert [] + rest.2 == rest.2;
      }
    }
  }

  lemma TailSucceeds(turns: seq<Turn>)
    requires turns != [] && WinNoticesSucceed(turns)
    ensures !turns[0].winNoticeFails && WinNoticesSucceed(turns[1..])
  {
    forall k | 0 <= k < |turns[1..]| ensures !turns[1..][k].winNoticeFails {
      assert turns[1..][k] == turns[k + 1];
    }
  }

  /** A legal move (1 to half the bag, from a bag of at least two) shrinks
      the bag and leaves at least one marble. */
  lemma LegalMoveShrinksBag(s: State, human: seq<bool>, t: Turn)
    requires |human| == 2 && IsSeat(s.player) && s.marbles >= 2
    requires t.move.Took? && 1 <= t.move.count <= s.marbles / 2
    ensures 1 <= Step(s, human, t).0.marbles < s.marbles
  {
  }

  /** Every answer a strategy gives from a bag of at least two is legal. */
  ghost predicate LegalStrategy(strategy: (int, int) -> int) {
    forall seat, bag :: bag >= 2 ==> 1 <= strategy(seat, bag) <= bag / 2
  }

  /** The answers the engine receives when both seats follow strategy and
      no remote call fails, until the bag holds one marble. */
  ghost function Script(s: State, strategy: (int, int) -> int): seq<Turn>
    requires LegalStrategy(strategy) && s.marbles >= 2
    decreases s.marbles
  {
    var m := strategy(s.player, s.marbles);
    var t := Turn(Took(m), false);
    if s.marbles - m == 1 then [t]
    else [t] + Script(State(s.marbles - m, 1 - s.player, false), strategy)
  }

  /** Termination under legal moves: if both seats only make legal moves and
      no call fails, the loop ends with a won game after at most
      marbles - 1 turns, having consumed exactly those answers. */
  lemma {:induction false} LegalPlayTerminates(s: State, human: seq<bool>, strategy: (int, int) -> int)
    requires |human| == 2 && IsSeat(s.player) && !s.won && s.marbles >= 2
    requires LegalStrategy(strategy)
    ensures var turns := Script(s, strategy);
      var r := Play(s, human, turns);
      1 <= |turns| <= s.marbles - 1 && r.0.won && r.0.marbles == 1 && r.1 == |turns|
    decreases s.marbles
  {
    var m := strategy(s.player, s.marbles);
    var t := Turn(Took(m), false);
    var turns := Script(s, strategy);
    var step := Step(s, human, t);
    assert turns[0] == t;
    if s.marbles - m != 1 {
      var next := State(s.marbles - m, 1 - s.player, false);
      assert step.0 == next;
      LegalPlayTerminates(next, human, strategy);
      assert turns[1..] == Script(next, strategy);
    }
  }

  /** Whatever its random draws, the computer only makes legal moves. */
  lemma ComputerStrategyIsLegal(difficulty: int, draws: (int, int) -> int)
    ensures LegalStrategy((seat: int, bag: int) =>
      ComputerMove(difficulty, bag, if bag >= 2 then draws(seat, bag) % (bag / 2) else 0))
  {
    var strategy := (seat: int, bag: int) =>
      ComputerMove(difficulty, bag, if bag >= 2 then draws(seat, bag) % (bag / 2) else 0);
    forall seat: int, bag: int | bag >= 2 ensures 1 <= strategy(seat, bag) <= bag / 2 {
      var roll := draws(seat, bag) % (bag / 2);
      assert strategy(seat, bag) == ComputerMove(difficulty, bag, roll);
    }
  }

  /** Five marbles, both seats always taking one: the game lasts exactly four
      turns and is won by the seat that did not start. */
  lemma FiveMarbleGame(start: int, human: seq<bool>, turns: seq<Turn>)
    requires IsSeat(start) && |human| == 2 && |turns| >= 4
    requires forall k :: 0 <= k < 4 ==> turns[k] == Turn(Took(1), false)
    ensures Play(State(5, start, false), human, turns)
         == (State(1, 1 - start, true), 4, EndNotices(human, 1 - start))
  {
    var t := Turn(Took(1), false);
    var end := State(1, 1 - start, true);
    assert turns[4..][..0] == [];
    assert Play(end, human, turns[4..]) == (end, 0, []);
    assert turns[3..][1..] == turns[4..];
    assert Play(State(2, 1 - start, false), human, turns[3..]) == (end, 1, EndNotices(human, 1 - start) + []);
    assert turns[2..][1..] == turns[3..];
    assert Play(State(3, start, false), human, turns[2..]) == (end, 2, [] + (EndNotices(human, 1 - start) + []));
    assert turns[1..][1..] == turns[2..];
    assert Play(State(4, 1 - start, false), human, turns[1..]) == (end, 3, [] + ([] + (EndNotices(human, 1 - start) + [])));
    assert [] + ([] + ([] + (EndNotices(human, 1 - start) + []))) == EndNotices(human, 1 - start);
  }

  /** The code a seat puts back in the queue after the game. */
  function Rejoins(p: Participant, a: Answer): seq<int> {
    if p.Human? && a.PlayAgain? then [p.code] else []
  }

  /** The code a seat takes out of the registry after the game. */
  function Leaves(p: Participant, a: Answer): set<int> {
    if p.Human? && a == Quit(true) then {p.code} else {}
  }

  /** The post-game loop is seat 0's handling followed, unless its removal
      failed, by seat 1's. */
  lemma {:induction false} AfterGameIsTwoRequeues(g: map<int, Client>, queue: seq<int>,
                                                  players: seq<Participant>, answers: seq<Answer>)
    requires |players| == 2 && |answers| == 2
    ensures var a := Requeue(g, queue, players[0], answers[0]);
      var b := Requeue(a.0, a.1, players[1], answers[1]);
      AfterGame(g, queue, players, answers, 0) ==
        if a.2 then (a.0, a.1, 0) else (b.0, b.1, if b.2 then 1 else 2)
  {
    var a := Requeue(g, queue, players[0], answers[0]);
    if !a.2 {
      var b := Requeue(a.0, a.1, players[1], answers[1]);
      assert AfterGame(a.0, a.1, players, answers, 1) == (if b.2 then (b.0, b.1, 1) else AfterGame(b.0, b.1, players, answers, 2));
    }
  }

  /** When the post-game loop runs to its end, the queue gains the codes of
      the humans who play again, in seat order, and the registry loses
      exactly the codes of the humans who quit and still answer. */
  lemma PostGameEffect(g: map<int, Client>, queue: seq<int>, players: seq<Participant>, answers: seq<Answer>)
    requires |players| == 2 && |answers| == 2
    requires AfterGame(g, queue, players, answers, 0).2 == 2
    ensures var r := AfterGame(g, queue, players, answers, 0);
      r.1 == queue + Rejoins(players[0], answers[0]) + Rejoins(players[1], answers[1]) &&
      r.0.Keys == g.Keys - Leaves(players[0], answers[0]) - Leaves(players[1], answers[1])
  {
    AfterGameIsTwoRequeues(g, queue, players, answers);
  }
}
