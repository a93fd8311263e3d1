# Game of Nim lobby — a Dafny model

This project models the sequential core of a networked Nim server. It has three parts:

- **The computer opponent** (`ComputerPlayer`). It holds its player data and picks a move from a bag of marbles:
  - On easy difficulty it takes a random amount between 1 and half the bag.
  - On hard difficulty it leaves its opponent 2^k − 1 marbles whenever it can.
- **The match engine** (`GameOfNim`). It tosses a coin for the first seat and draws the starting bag. It then runs the turn loop until one marble is left: the player who made the last move wins, and the one forced to face the last marble loses. Afterwards each human is requeued or removed from the lobby.
- **The lobby** (`NimServerLobby`). It has three parts:
  - A registry `gamers`, mapping a random key to a client.
  - A queue `waitingPlayers` of `WaitingPlayer` entries, each holding a key and an in-game flag.
  - A matchmaking cycle. The cycle scans the queue in order:
    - It gives every computer-seeking player a game against the computer.
    - It pairs a human-seeking player with the first later unclaimed entry that is compatible, unless its search first meets an unclaimed entry whose player has left or does not answer (see below).
    - It then bulk-removes the claimed entries.

Files:

- `Constants.dfy`: the difficulty and player-type values.
- `ComputerPlayer.dfy`: the move strategy as a function, proved against its game-theoretic meaning. It also holds the `ComputerPlayer` class, whose `GetMarbles` keeps the source's doubling loop.
- `Lobby.dfy`: the specification of one matchmaking cycle (`FindOpponent`, `ScanEntry`, `ScanFrom`, `Cycle`). It also holds the `WaitingPlayer` and `NimServerLobby` classes. Their methods update the registry, the queue and the entries' flags in place, and each one is proved equal to that specification.
- `LobbyProperties.dfy`: what a cycle guarantees.
- `GameOfNim.dfy`: the turn semantics (`Step`, `Play`) and the post-game handling (`Requeue`, `AfterGame`). It also holds the `GameOfNim` class, whose methods run the loops on the fields `marbles`, `player` and `won`.
- `GameProperties.dfy`: turn alternation, who is declared winner, termination under legal moves, and a worked five-marble game.

Randomness, remote clients and failures are parameters:

- `roll`, `coin` and `draws` are the values `java.util.Random` would return.
- A `Turn` is a human's (or the computer's) answer to `getMarbles`, or a failed call.
- An `Answer` is the reply to `playAgain`.
- A `View` fixes which clients fail to answer during one cycle. `unreachable` clients fail every call. `lostBeforeStart` clients answer while the cycle matches players but fail when the game is launched.

The model keeps these behaviours of the code as written:

- A human-seeking player's search for an opponent does not simply skip a later entry whose player has left the registry or does not answer. The null dereference or remote failure on that entry ends the whole search (`NimServerLobby.java:178-181`, caught at 219). So the player stays unmatched this cycle, even when a compatible entry follows (`FindOpponent`, result `Aborted`).
- Some player may have left the registry while still queued. When, in addition, anything was claimed in a cycle, the name listing before the bulk removal (`NimServerLobby.java:229-236`) dereferences null. Its handler catches only `RemoteException`, so the matchmaking thread ends before `removeAll`. `ManageCycle` reports this as `halted` (predicate `ListingFails`), and `LeftPlayerStopsMatchmaking` exhibits it.
- `leaveLobby` for a key that is not registered dereferences null and throws. This outcome is `NoSuchPlayer`, and in the post-game loop it ends the loop. If the client no longer answers, the `getName()` in its handler throws again, and the key is not removed (`ClientUnreachable`).
- If a human winner's `won()` notification throws, the switch at `GameOfNim.java:105` is skipped. The index then ends on the loser and the loser is not told (`Step`).

## Model

| member | source | states |
|---|---|---|
| ComputerPlayers.PowerOfTwoAtMost | src/player/ComputerPlayer.java:107-109 | the doubling search yields the largest power of two not above the bag, and at least 2 once the bag holds two marbles |
| ComputerPlayers.ComputerMove | src/player/ComputerPlayer.java:84-120 | a bag below 2 gives 0; otherwise every move, easy or hard, is legal (1 to half the bag); easy takes the random draw plus one |
| ComputerPlayers.HardMoveLeavesLosingBag | src/player/ComputerPlayer.java:115-116 | off a 2·pot−1 bag, hard takes bag − pot + 1 and leaves exactly pot − 1, a bag of the form 2^k − 1 |
| ComputerPlayers.HardMoveOnLosingBagIsRandom | src/player/ComputerPlayer.java:112-113 | on a 2^k − 1 bag, hard takes a random legal amount |
| ComputerPlayers.EveryMoveFromLosingBagLeavesWinningBag | src/player/ComputerPlayer.java:101-105 | from a 2^k − 1 bag of at least 3, every legal move leaves a bag not of that form |
| ComputerPlayers.MoverWinsIffNotLosingBag | src/player/ComputerPlayer.java:101-105 | under the rule that whoever leaves one marble wins, the player to move can force a win exactly when the bag is not 2^k − 1 |
| ComputerPlayers.HardMoveIsWinning | src/player/ComputerPlayer.java:101-117 | from a winnable bag, the hard move leaves the opponent a lost position (or the last marble) |
| ComputerPlayers.LargestPowerOfTwoIsUnique | src/player/ComputerPlayer.java:108-109 | the largest power of two not above the bag is unique, so the loop's pot and the specification's agree |
| ComputerPlayers.ComputerPlayer.constructor | src/player/ComputerPlayer.java:29-35 | name and difficulty as given, a computer player facing a human, not human, player code −1, not in game |
| ComputerPlayers.ComputerPlayer.SetPlayerCode | src/player/ComputerPlayer.java:73-76 | the player code reads back as set |
| ComputerPlayers.ComputerPlayer.SetInGameStatus | src/player/ComputerPlayer.java:135-138 | a no-op: the in-game status is unchanged |
| ComputerPlayers.ComputerPlayer.PlayAgain | src/player/ComputerPlayer.java:165-168 | the computer never asks for another game |
| ComputerPlayers.ComputerPlayer.GetMarbles | src/player/ComputerPlayer.java:84-120 | the doubling loop's result equals ComputerMove for the same bag and draw |
| Lobby.FindOpponent | src/server/NimServerLobby.java:174-192 | a found entry is a later unclaimed entry whose player answers and is compatible, with every entry before it claimed or answering but incompatible |
| Lobby.FindOpponentFirstFit | src/server/NimServerLobby.java:174-192 | the first later entry not passed over decides: no opponent exactly when every later entry is claimed or answers but does not fit; aborted exactly when that first entry is unclaimed and silent |
| Lobby.ScanEntry | src/server/NimServerLobby.java:153-193 | a launch starts from an unclaimed answering entry, fits the registry and starts exactly when both players are reachable; a computer pairing claims the entry alone, a human pairing claims it and one later unclaimed entry |
| Lobby.ScanEntryFollowsRule | src/server/NimServerLobby.java:153-193 | a claimed or silent entry is skipped with nothing claimed; an unclaimed answering computer seeker is always launched against the computer and claimed alone; a human seeker is launched exactly when FindOpponent finds an entry, against that entry's player, and both are claimed |
| Lobby.ScanFrom | src/server/NimServerLobby.java:151-224 | claims only grow and are never made behind the scan; silent entries are never claimed; every launched pairing has the player's difficulty and a compatible human or the computer |
| Lobby.SetInGame | src/game/GameOfNim.java:127 | only the named client's in-game flag changes |
| Lobby.MarkInGame | src/server/NimServerLobby.java:207-208 | keeps every registered key and changes nothing but in-game flags |
| Lobby.MarkInGameMarksLaunched | src/server/NimServerLobby.java:207-208 | every registered client a started launch names is in game; a client no started launch names keeps its record |
| Lobby.MarkLaunch | src/server/NimServerLobby.java:207-208 | a started launch sets its player's and its human opponent's flags; every other record is unchanged |
| Lobby.Cycle | src/server/NimServerLobby.java:151-224 | one scan from nothing claimed: silent entries are never claimed, and every launch fits the registry and starts exactly when its launch calls succeed |
| Lobby.RemoveAll | src/server/NimServerLobby.java:240 | `removeAll` keeps exactly the entries not in the removal list |
| Lobby.RemoveAllIsUnclaimed | src/server/NimServerLobby.java:227-243 | removing the recorded entries by identity leaves the unclaimed entries in their original order |
| Lobby.WaitingPlayer.constructor | src/server/NimServerLobby.java:36-40 | the entry holds the given key and flag |
| Lobby.NimServerLobby.constructor | src/server/NimServerLobby.java:55-63 | empty registry and queue |
| Lobby.NimServerLobby.QueuePlayer | src/server/NimServerLobby.java:106-108 | one fresh unclaimed entry with that key is appended; the registry and existing entries are unchanged |
| Lobby.NimServerLobby.AddPlayer | src/server/NimServerLobby.java:70-98 | the key is not registered and every earlier draw was; the client is stored under it with that player code and one entry is queued; if the client does not answer nothing changes |
| Lobby.NimServerLobby.LeaveLobby | src/server/NimServerLobby.java:116-128 | removes exactly that key when registered and answering, leaves the queue untouched; an unknown key fails; an unreachable client is not removed |
| Lobby.NimServerLobby.SetClientInGameStatus | src/game/GameOfNim.java:127 | the client's in-game flag is set; queue unchanged |
| Lobby.NimServerLobby.SearchOpponent | src/server/NimServerLobby.java:174-192 | the inner loop returns FindOpponent from the entry after the player |
| Lobby.NimServerLobby.ScanWaitingPlayer | src/server/NimServerLobby.java:153-223 | one outer iteration equals ScanEntry; flags and removal list mirror the claims |
| Lobby.NimServerLobby.PairWithOpponent | src/server/NimServerLobby.java:167-193 | the human-seeker branch of an outer iteration equals ScanEntry: both entries flagged and recorded exactly when the search finds one; flags and removal list mirror the claims |
| Lobby.NimServerLobby.Claim | src/server/NimServerLobby.java:184-190 | the entry is flagged in game and recorded for removal, and only that claim is added |
| Lobby.NimServerLobby.ScanAndLaunch | src/server/NimServerLobby.java:153-217 | one outer iteration with its launch keeps the scan on Cycle and the registry's in-game flags on the launches so far |
| Lobby.NimServerLobby.ScanQueue | src/server/NimServerLobby.java:151-224 | the outer loop yields Cycle's launches and claims, leaving the queue's order untouched |
| Lobby.NimServerLobby.DropClaimed | src/server/NimServerLobby.java:239-242 | the queue becomes exactly the unclaimed entries in their old order, none of them in game, and the removal list is empty |
| Lobby.NimServerLobby.ListNames | src/server/NimServerLobby.java:229-236 | the listing stops exactly when some queued key is no longer registered |
| Lobby.NimServerLobby.ManageCycle | src/server/NimServerLobby.java:146-245 | the launches are Cycle's; the queue is the old queue minus exactly the claimed entries, order kept, even for launches that failed; the removal list is empty again; the registry is MarkInGame of the launches, so their players are in game (MarkInGameMarksLaunched); it halts exactly when ListingFails |
| Lobby.NimServerLobby.RemoveClaimed | src/server/NimServerLobby.java:227-244 | after the listing, the queue keeps exactly the unclaimed entries and the removal list is cleared; the listing halts exactly when something was claimed and some queued key is unregistered |
| LobbyProperties.ComputerSeekersLaunched | src/server/NimServerLobby.java:163-168 | no human pairing ever claims a computer seeker, so each one is claimed by its own step and launched against the computer at its difficulty |
| LobbyProperties.CycleLaunchesComputerSeekers | src/server/NimServerLobby.java:163-168 | every answering computer seeker is claimed in the cycle and gets exactly its computer game |
| LobbyProperties.CycleKeepsSilentEntries | src/server/NimServerLobby.java:159-163 | an entry whose player has left or does not answer is never claimed, so it stays queued |
| LobbyProperties.UnmatchedHumanStays | src/server/NimServerLobby.java:169-192 | a human seeker without a found opponent stays unclaimed and launches nothing |
| LobbyProperties.EntryClaimsMatchSeats | src/server/NimServerLobby.java:163-190 | one scan step claims one entry for a computer game, two for a human game, none otherwise |
| LobbyProperties.ClaimsMatchSeats | src/server/NimServerLobby.java:155-190 | claims added from any point equal the seats launched, so no entry is claimed twice |
| LobbyProperties.CycleClaimsMatchSeats | src/server/NimServerLobby.java:151-224 | a cycle claims exactly one entry per computer game and two per human game |
| LobbyProperties.CountClaimOne | src/server/NimServerLobby.java:185-186 | claiming an unclaimed entry adds exactly one claim |
| LobbyProperties.CycleFromReached | src/server/NimServerLobby.java:151-224 | the scan from any index, with the flags it has reached there, ends with the cycle's claims and launches among the cycle's |
| LobbyProperties.HumanPairLaunched | src/server/NimServerLobby.java:174-211 | when the scan reaches an unclaimed answering human seeker whose search finds entry j, the cycle claims both and launches the player against j's compatible player at the player's difficulty |
| LobbyProperties.CycleKeepsUnmatchedHuman | src/server/NimServerLobby.java:169-192 | a human seeker whose search finds nobody when the scan reaches it stays unclaimed for the whole cycle |
| LobbyProperties.ThreePlayerCycle | src/server/NimServerLobby.java:151-224 | queue A (easy), B (hard), C (easy), all human seekers: A is paired with C and B stays queued |
| LobbyProperties.LeftPlayerStopsMatchmaking | src/server/NimServerLobby.java:229-236 | a computer seeker followed by the entry of a player who left: the listing fails and matchmaking stops |
| Game.Step | src/game/GameOfNim.java:81-117 | the move is subtracted (a failed call leaves the bag); the game is won exactly at one marble; otherwise the turn passes and nobody is told; when won the index rests on the mover, who is told it won and the other that it lost, humans only |
| Game.Play | src/game/GameOfNim.java:80-119 | the loop stops only when won or out of answers; the seat index stays 0 or 1 |
| Game.Requeue | src/game/GameOfNim.java:124-139 | a human who plays again is marked not in game and requeued; one who quits is removed if it still answers and kept otherwise, and the loop ends if the key was unknown; the computer and a failed `playAgain` change nothing |
| Game.AfterGame | src/game/GameOfNim.java:123-140 | the post-game loop ends at 2, or earlier only at a human seat that quit, whose removal failed |
| Game.EndNoticesTellHumans | src/game/GameOfNim.java:100-109 | the winner is told it won and the loser that it lost, humans only, winner first, and nobody else is told |
| Game.GameOfNim.constructor | src/game/GameOfNim.java:39-68 | the starting seat is the coin toss (0 or 1); the bag starts in [5, 23] on easy and [5, 103] otherwise; not won |
| Game.GameOfNim.TakeTurn | src/game/GameOfNim.java:81-117 | one pass of the loop body equals Step |
| Game.GameOfNim.PlayTurns | src/game/GameOfNim.java:80-119 | the do-while loop equals Play |
| Game.GameOfNim.Conclude | src/game/GameOfNim.java:124-139 | one pass of the post-game loop equals Requeue on the lobby's registry and queue |
| Game.GameOfNim.FinishGame | src/game/GameOfNim.java:123-140 | the post-game loop equals AfterGame |
| Game.GameOfNim.Run | src/game/GameOfNim.java:75-141 | the turn loop equals Play, then the post-game loop equals AfterGame once won; otherwise the lobby is untouched and the seat is Play's |
| GameProperties.TurnsAlternate | src/game/GameOfNim.java:98-117 | seats alternate turn by turn; when won, the index holds the seat that made the last move, which was told it won and the other that it lost |
| GameProperties.LegalMoveShrinksBag | src/game/GameOfNim.java:82-92 | a legal move shrinks the bag and leaves at least one marble |
| GameProperties.LegalPlayTerminates | src/game/GameOfNim.java:80-119 | when both seats only make legal moves the game is won at one marble after at most bag − 1 turns |
| GameProperties.ComputerStrategyIsLegal | src/player/ComputerPlayer.java:94-117 | the computer's moves form a legal strategy whatever its draws |
| GameProperties.AfterGameIsTwoRequeues | src/game/GameOfNim.java:123-140 | the post-game loop is seat 0's Requeue, then seat 1's unless seat 0's removal failed |
| GameProperties.PostGameEffect | src/game/GameOfNim.java:123-140 | when the loop completes, the queue gains the codes of the humans who play again in seat order and the registry loses exactly the codes of the humans who quit and still answer |
| GameProperties.FiveMarbleGame | src/game/GameOfNim.java:80-119 | five marbles, one taken each turn: four turns, won by the seat that did not start |

## Left out

- Remote method invocation, registry setup, `initialiseServerLobby`, `ready` and `main`: network plumbing with no modelled state.
- Threads, `synchronized`, the `sleep(1000)` and the endless `while(true)`: one cycle is a sequential method, and a launched game is returned as a `Launch` value instead of a started thread. Games therefore never interleave with a cycle.
- Console output, logging, `serverMessage` and `getName`: observational only. The one place where a `getName` changes control flow (the listing before removal) is modelled as `halted`.
- `java.util.Random`: key draws, the coin toss, the starting bag and the computer's random moves are parameters (`draws`, `coin`, `roll`), constrained to the ranges the code draws from.
- The human client's `getMarbles` and `playAgain`: the client is not part of this model, so its answers are the `turns` and `answers` oracles. `WonNotice`/`LostNotice` record the `won()`/`lost()` calls made.
- Remote failures: only per-cycle `unreachable` and `lostBeforeStart` sets in the lobby, a failed move or win notification in the game, `NoAnswer` and `Quit(reachable)` after a game, and the `reachable` flag of `AddPlayer` and `LeaveLobby`. A client that fails only some of its calls inside one cycle, or whose `setInGameStatus` fails after `playAgain` answered, is not modelled.
- Game.Play: the loop ends when the oracle runs out of turns as well as when the game is won; the source loops until won, and with illegal moves may loop forever.
- The game and the lobby: a launched `Launch` records the pairing but does not construct a `GameOfNim` object; the computer opponent is the `ComputerOpponent` descriptor with the player's difficulty rather than a new `ComputerPlayer`.
- A client's own in-game flag is held in its registry record (`Client.inGame`).
- `ComputerPlayer.won`, `lost` and `getName`: no-ops or plain field reads with nothing to state. The accessors `GetIsHuman`, `GetOpponentType`, `GetDifficulty`, `GetPlayerCode` and `GetInGameStatus` are field reads without contracts of their own; what they return is stated by the constructor's, `SetPlayerCode`'s and `SetInGameStatus`'s contracts.
- Java `int` overflow: integers are unbounded, so `count *= 2` at `ComputerPlayer.java:108` and `marbles -= marblesTaken` never wrap. Only the starting bag is bounded (at most 103); a move the client reports with a negative count makes the bag grow, and the model lets it, as the source does.
