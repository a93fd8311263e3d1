/** The match engine: one game of Nim between two players, then the
    post-game requeue or removal (src/game/GameOfNim.java). */
module Game {
  import opened Constants
  import opened Lobby

  /** A seat in the game: a human client (known by its player code) or the
      computer. */
  datatype Participant = Human(code: int) | Computer

  /** What `players[player].getMarbles(marbles)` did: returned a count, or
      threw a RemoteException. */
  datatype Move = Took(count: int) | MoveFailed

  /** The oracle's answer for one turn: the move, and whether the winner's
      notification (`getIsHuman()` / `won()` on a human winner) would throw
      should this turn end the game. */
  datatype Turn = Turn(move: Move, winNoticeFails: bool)

  /** A `won()` or `lost()` call made on the human in the given seat. */
  datatype Notice = WonNotice(seat: int) | LostNotice(seat: int)

  /** The engine's fields: marbles in the bag, seat to move, game won. */
  datatype State = State(marbles: int, player: int, won: bool)

  /** A human's reply to `playAgain()`. Quit carries whether the client
      still answers the `getName()` calls of `leaveLobby`; NoAnswer: the
      `playAgain()` call threw. */
  datatype Answer = PlayAgain | Quit(reachable: bool) | NoAnswer

  predicate IsSeat(p: int) { p == 0 || p == 1 }

  /** The notifications at the end of a game won by seat winner: only
      humans are told. */
  function EndNotices(human: seq<bool>, winner: int): (r: seq<Notice>)
    requires |human| == 2 && IsSeat(winner)
    ensures |r| <= 2
  {
    (if human[winner] then [WonNotice(winner)] else []) +
    (if human[1 - winner] then [LostNotice(1 - winner)] else [])
  }

  /** Only humans are told: the winner that it won, the other seat that it
      lost, the winner first, and nobody else. */
  lemma EndNoticesTellHumans(human: seq<bool>, winner: int)
    requires |human| == 2 && IsSeat(winner)
    ensures var r := EndNotices(human, winner);
      ((WonNotice(winner) in r) <==> human[winner]) &&
      ((LostNotice(1 - winner) in r) <==> human[1 - winner]) &&
      (forall n :: n in r ==> n == WonNotice(winner) || n == LostNotice(1 - winner)) &&
      (|r| == 2 ==> r[0].WonNotice?)
  {
  }

  /** One pass of the do-while body. */
  function Step(s: State, human: seq<bool>, t: Turn): (r: (State, seq<Notice>))
    requires |human| == 2 && IsSeat(s.player)
    ensures IsSeat(r.0.player)
    ensures r.0.marbles == if t.move.Took? then s.marbles - t.move.count else s.marbles
    ensures r.0.won <==> r.0.marbles == 1
    ensures !r.0.won ==> r.0.player == 1 - s.player && r.1 == []
    ensures r.0.won && !(human[s.player] && t.winNoticeFails) ==>
      r.0.player == s.player && r.1 == EndNotices(human, s.player)
    ensures r.0.won && human[s.player] && t.winNoticeFails ==> r.0.player == 1 - s.player && r.1 == []
  {
    var marbles := if t.move.Took? then s.marbles - t.move.count else s.marbles;
    if marbles != 1 then (State(marbles, 1 - s.player, false), [])
    else if human[s.player] && t.winNoticeFails then (State(marbles, 1 - s.player, true), [])
    else (State(marbles, s.player, true), EndNotices(human, s.player))
  }

  /** The turn loop over the oracle's answers: it runs until the game is won
      or the answers run out. The result is the final state, the number of
      turns played and the notifications made. */
  function Play(s: State, human: seq<bool>, turns: seq<Turn>): (r: (State, nat, seq<Notice>))
    requires |human| == 2 && IsSeat(s.player)
    ensures IsSeat(r.0.player) && r.1 <= |turns|
    ensures s.won ==> r == (s, 0, [])
    ensures r.0.won || r.1 == |turns|
    decreases |turns|
  {
    if s.won || turns == [] then (s, 0, [])
    else
      var step := Step(s, human, turns[0]);
      var rest := Play(step.0, human, turns[1..]);
      (rest.0, rest.1 + 1, step.1 + rest.2)
  }

  /** The post-game handling of one seat. A human who wants another game is
      marked not in game and queued again; one who quits leaves the lobby,
      unless it no longer answers, in which case leaveLobby throws a
      RemoteException (caught by the loop) before the removal; a code no
      longer registered makes leaveLobby fail with a null reference, which
      ends the post-game loop (the third component); a human whose
      `playAgain()` throws, and the computer, change nothing. */
  function Requeue(g: map<int, Client>, queue: seq<int>, who: Participant, answer: Answer)
    : (r: (map<int, Client>, seq<int>, bool))
    ensures who.Computer? || answer.NoAnswer? ==> r == (g, queue, false)
    ensures who.Human? && answer.PlayAgain? ==>
      r == (SetInGame(g, who.code, false), queue + [who.code], false)
    ensures who.Human? && answer.Quit? ==>
      r.0 == (if answer.reachable then g - {who.code} else g) && r.1 == queue && (r.2 <==> who.code !in g)
    ensures who.Human? && answer == Quit(true) ==> who.code !in r.0
  {
    match who
    case Computer => (g, queue, false)
    case Human(code) =>
      match answer
      case NoAnswer => (g, queue, false)
      case PlayAgain => (SetInGame(g, code, false), queue + [code], false)
      case Quit(reachable) => (if reachable then g - {code} else g, queue, code !in g)
  }

  /** The post-game loop from seat i: registry, queue keys, and the value the
      loop index has when the loop ends (2, or the seat whose leaveLobby failed). */
  function AfterGame(g: map<int, Client>, queue: seq<int>, players: seq<Participant>, answers: seq<Answer>, i: int)
    : (r: (map<int, Client>, seq<int>, int))
    requires |players| == 2 && |answers| == 2 && 0 <= i <= 2
    ensures i <= r.2 <= 2
    ensures r.2 < 2 ==> players[r.2].Human? && answers[r.2].Quit?
    decreases 2 - i
  {
    if i == 2 then (g, queue, 2)
    else
      var r := Requeue(g, queue, players[i], answers[i]);
      if r.2 then (r.0, r.1, i) else AfterGame(r.0, r.1, players, answers, i + 1)
  }

  /** A game between two seats, with a reference back to the lobby. */
  class GameOfNim {
    var player: int
    var marbles: int
    var won: bool
    const difficulty: int
    const players: array<Participant>
    const lobby: NimServerLobby

    ghost predicate Valid()
      reads this
    {
      players.Length == 2 && IsSeat(player)
    }

    function Humans(): (h: seq<bool>)
      requires players.Length == 2
      reads players
      ensures |h| == 2
    {
      [players[0].Human?, players[1].Human?]
    }

    /** `coin` is the coin toss `rand.nextInt(2)`; `roll` the draw
        `rand.nextInt(19)` (easy) or `rand.nextInt(99)` (otherwise). */
    constructor (p1: Participant, p2: Participant, difficulty: int, lobby: NimServerLobby, coin: int, roll: int)
      requires IsSeat(coin)
      requires 0 <= roll < (if difficulty == EASY then 19 else 99)
      ensures Valid() && fresh(players) && players[..] == [p1, p2]
      ensures this.difficulty == difficulty && this.lobby == lobby
      ensures player == coin && !won && marbles == roll + 5
      ensures 5 <= marbles <= (if difficulty == EASY then 23 else 103)
    {
      var seats := new Participant[2];
      seats[0] := p1;
      seats[1] := p2;
      players := seats;
      this.difficulty := difficulty;
      this.lobby := lobby;
      player := coin;
      marbles := roll + 5;
      won := false;
    }

    /** One pass of the do-while body: take the move, and on reaching one
        marble tell the humans, set `won` and leave the turn with the winner;
        otherwise pass the turn. */
    method TakeTurn(turn: Turn) returns (told: seq<Notice>)
      requires Valid() && !won
      modifies this`marbles, this`player, this`won
      ensures Valid()
      ensures (State(marbles, player, won), told) == Step(State(old(marbles), old(player), false), Humans(), turn)
    {
      told := [];
      if turn.move.Took? {
        marbles := marbles - turn.move.count;
      }
      if marbles == 1 {
        if players[player].Human? && turn.winNoticeFails {
          // the remote call before the switch threw: the turn is not
          // switched here, and the loser is not told
        } else {
          ghost var winner := player;
          if players[player].Human? {
            told := told + [WonNotice(player)];
          }
          player := 1 - player;
          if players[player].Human? {
            told := told + [LostNotice(player)];
          }
          assert told == EndNotices(Humans(), winner);
        }
        won := true;
      }
      player := 1 - player;
    }

    /** The do-while turn loop, answered by `turns`. */
    method PlayTurns(turns: seq<Turn>) returns (moves: nat, notices: seq<Notice>)
      requires Valid() && !won
      modifies this`marbles, this`player, this`won
      ensures Valid()
      ensures (State(marbles, player, won), moves, notices)
           == Play(State(old(marbles), old(player), false), Humans(), turns)
    {
      ghost var h := Humans();
      ghost var start := State(marbles, player, won);
      moves, notices := 0, [];
      assert turns[0..] == turns;
      assert [] + Play(start, h, turns).2 == Play(start, h, turns).2;
      assert PlaySoFar(start, h, turns, moves, notices, State(marbles, player, won));
      while !won && moves < |turns|
        invariant Valid() && 0 <= moves <= |turns|
        invariant PlaySoFar(start, h, turns, moves, notices, State(marbles, player, won))
      {
        ghost var before := State(marbles, player, won);
        ghost var noticesBefore := notices;
        var told := TakeTurn(turns[moves]);
        notices := notices + told;
        PlayStep(start, h, turns, moves, noticesBefore, before);
        moves := moves + 1;
      }
      assert won || turns[moves..] == [];
      assert notices + [] == notices;
    }

    /** One pass of the post-game for loop: the body for seat `who`. */
    method Conclude(who: Participant, answer: Answer) returns (aborted: bool)
      requires lobby.Valid()
      modifies lobby
      ensures lobby.Valid()
      ensures (lobby.gamers, Keys(lobby.waitingPlayers), aborted)
           == Requeue(old(lobby.gamers), Keys(old(lobby.waitingPlayers)), who, answer)
    {
      aborted := false;
      if who.Human? {
        match answer
        case PlayAgain =>
          lobby.SetClientInGameStatus(who.code, false);
          lobby.QueuePlayer(who.code);
        case Quit(reachable) =>
          var left := lobby.LeaveLobby(who.code, reachable);
          aborted := left == NoSuchPlayer;
          assert aborted ==> old(lobby.gamers) - {who.code} == old(lobby.gamers);
        case NoAnswer =>
      }
    }

    /** The post-game for loop over both seats, which reuses `player` as its
        index. */
    method FinishGame(answers: seq<Answer>)
      requires players.Length == 2 && |answers| == 2 && lobby.Valid()
      modifies this`player, lobby
      ensures lobby.Valid()
      ensures (lobby.gamers, Keys(lobby.waitingPlayers), player)
           == AfterGame(old(lobby.gamers), Keys(old(lobby.waitingPlayers)), players[..], answers, 0)
    {
      ghost var goal := AfterGame(lobby.gamers, Keys(lobby.waitingPlayers), players[..], answers, 0);
      player := 0;
      while player < 2
        invariant 0 <= player <= 2 && lobby.Valid()
        invariant goal == AfterGame(lobby.gamers, Keys(lobby.waitingPlayers), players[..], answers, player)
      {
        var aborted := Conclude(players[player], answers[player]);
        if aborted {
          return;
        }
        player := player + 1;
      }
    }

    /** `run`: the turn loop, then, once the game is won, the post-game loop. */
    method Run(turns: seq<Turn>, answers: seq<Answer>) returns (moves: nat, notices: seq<Notice>)
      requires Valid() && !won && |answers| == 2 && lobby.Valid()
      modifies this`marbles, this`player, this`won, lobby
      ensures lobby.Valid()
      ensures var r := Play(State(old(marbles), old(player), false), Humans(), turns);
        marbles == r.0.marbles && won == r.0.won && moves == r.1 && notices == r.2
      ensures won ==> ((lobby.gamers, Keys(lobby.waitingPlayers), player)
        == AfterGame(old(lobby.gamers), Keys(old(lobby.waitingPlayers)), players[..], answers, 0))
      ensures !won ==> unchanged(lobby) && player == Play(State(old(marbles), old(player), false), Humans(), turns).0.player
    {
      moves, notices := PlayTurns(turns);
      if won {
        FinishGame(answers);
      }
    }
  }

  /** The turns played so far followed by the rest of the loop make up the game. */
  ghost predicate PlaySoFar(start: State, human: seq<bool>, turns: seq<Turn>, moves: nat,
                            notices: seq<Notice>, now: State)
    requires |human| == 2 && IsSeat(start.player) && IsSeat(now.player) && moves <= |turns|
  {
    var rest := Play(now, human, turns[moves..]);
    Play(start, human, turns) == (rest.0, moves + rest.1, notices + rest.2) &&
    (moves == 0 ==> now == start) && (!start.won ==> moves > 0 || !now.won)
  }

  lemma PlayStep(start: State, human: seq<bool>, turns: seq<Turn>, moves: nat, notices: seq<Notice>, now: State)
    requires |human| == 2 && IsSeat(start.player) && IsSeat(now.player) && moves < |turns| && !now.won
    requires PlaySoFar(start, human, turns, moves, notices, now)
    ensures var step := Step(now, human, turns[moves]);
      PlaySoFar(start, human, turns, moves + 1, notices + step.1, step.0)
  {
    var step := Step(now, human, turns[moves]);
    assert turns[moves..][1..] == turns[moves + 1..];
    var rest := Play(step.0, human, turns[moves + 1..]);
    assert Play(now, human, turns[moves..]) == (rest.0, rest.1 + 1, step.1 + rest.2);
    assert notices + (step.1 + rest.2) == (notices + step.1) + rest.2;
  }
}
