/** The participant registry, the waiting queue and one cycle of the
    matchmaking loop (src/server/NimServerLobby.java). */
module Lobby {
  import opened Constants

  datatype Option<T> = None | Some(value: T)

  /** What the lobby can learn from a registered human client through its
      handle: its name, difficulty, preferred opponent type, the player code
      it was given and its in-game flag. */
  datatype Client = Client(name: string, difficulty: int, opponentType: int, playerCode: int, inGame: bool)

  /** The opponent a pairing puts in front of the queued player. */
  datatype Opponent = HumanOpponent(key: int) | ComputerOpponent(difficulty: int)

  /** A pairing made by the matchmaker: the queued player's key, its
      opponent and the game's difficulty (the queued player's). */
  datatype Pairing = Pairing(playerKey: int, opponent: Opponent, difficulty: int)

  /** A pairing together with whether its game thread was started; a
      remote failure while announcing and constructing the game prevents it. */
  datatype Launch = Launch(pairing: Pairing, started: bool)

  /** What one matchmaking cycle sees: the registry, the clients that fail
      every remote call during the cycle, and the clients that still answer
      while being matched but fail once their game is being launched. */
  datatype View = View(gamers: map<int, Client>, unreachable: set<int>, lostBeforeStart: set<int>)

  /** Outcome of the search for an opponent. */
  datatype Search = Found(index: nat) | NoOpponent | Aborted

  /** Outcome of leaveLobby. */
  datatype LeaveResult = Left | NoSuchPlayer | ClientUnreachable

  /** The registry holds a handle for key and the client answers its calls:
      otherwise `gamers.get` yields null or the remote call throws. */
  predicate Answers(v: View, key: int) {
    key in v.gamers && key !in v.unreachable
  }

  /** Two players may meet: same difficulty and same preferred opponent type. */
  predicate Compatible(a: Client, b: Client) {
    a.difficulty == b.difficulty && a.opponentType == b.opponentType
  }

  /** The candidate at index k is passed over by the search for an opponent
      of p: it is already claimed, or it answers but does not fit p. */
  predicate PassedOver(keys: seq<int>, claimed: seq<bool>, v: View, p: Client, k: int)
    requires |claimed| == |keys| && 0 <= k < |keys|
  {
    claimed[k] || (Answers(v, keys[k]) && !Compatible(p, v.gamers[keys[k]]))
  }

  /** The forward search for an opponent of p, starting at index j. Claimed
      entries are skipped; of the unclaimed ones, a compatible one is found,
      an incompatible one is passed over, and one whose player is missing or
      does not answer aborts the search (the exception leaves the inner
      loop). */
  function FindOpponent(keys: seq<int>, claimed: seq<bool>, v: View, p: Client, j: int): (r: Search)
    requires |claimed| == |keys| && 0 <= j <= |keys|
    ensures r.Found? ==> j <= r.index < |keys| && !claimed[r.index]
    ensures r.Found? ==> Answers(v, keys[r.index]) && Compatible(p, v.gamers[keys[r.index]])
    ensures r.Found? ==> forall k :: j <= k < r.index ==> PassedOver(keys, claimed, v, p, k)
    decreases |keys| - j
  {
    if j == |keys| then NoOpponent
    else if claimed[j] then FindOpponent(keys, claimed, v, p, j + 1)
    else if !Answers(v, keys[j]) then Aborted
    else if Compatible(p, v.gamers[keys[j]]) then Found(j)
    else FindOpponent(keys, claimed, v, p, j + 1)
  }

  /** The search ends on the first entry that is not passed over: it finds
      no opponent exactly when every remaining entry is passed over, and it
      aborts exactly when the first such entry is unclaimed and silent. */
  lemma {:induction false} FindOpponentFirstFit(keys: seq<int>, claimed: seq<bool>, v: View, p: Client, j: int)
    requires |claimed| == |keys| && 0 <= j <= |keys|
    ensures var r := FindOpponent(keys, claimed, v, p, j);
      r.NoOpponent? <==> forall k :: j <= k < |keys| ==> PassedOver(keys, claimed, v, p, k)
    ensures var r := FindOpponent(keys, claimed, v, p, j);
      r.Aborted? <==>
        (exists k :: j <= k < |keys| && !claimed[k] && !Answers(v, keys[k]) &&
           forall m :: j <= m < k ==> PassedOver(keys, claimed, v, p, m))
    decreases |keys| - j
  {
    if j < |keys| {
      FindOpponentFirstFit(keys, claimed, v, p, j + 1);
      if !PassedOver(keys, claimed, v, p, j) {
        assert !(forall k :: j <= k < |keys| ==> PassedOver(keys, claimed, v, p, k));
      }
    }
  }

  /** The pairing agrees with the registry: the queued player is registered,
      the game has its difficulty, a computer opponent is asked for by the
      player and has its difficulty, a human opponent is registered and
      compatible. */
  predicate PairingFits(v: View, p: Pairing) {
    p.playerKey in v.gamers &&
    p.difficulty == v.gamers[p.playerKey].difficulty &&
    match p.opponent
    case ComputerOpponent(d) =>
      d == p.difficulty && v.gamers[p.playerKey].opponentType == COMPUTER_PLAYER
    case HumanOpponent(k) =>
      k in v.gamers && Compatible(v.gamers[p.playerKey], v.gamers[k]) &&
      v.gamers[p.playerKey].opponentType != COMPUTER_PLAYER
  }

  /** The remote calls that launch the game succeed. */
  predicate Starts(v: View, p: Pairing) {
    p.playerKey !in v.lostBeforeStart &&
    (p.opponent.HumanOpponent? ==> p.opponent.key !in v.lostBeforeStart)
  }

  /** One iteration of the outer scan, on the entry at index i. */
  function ScanEntry(keys: seq<int>, claimed: seq<bool>, v: View, i: int): (r: (Option<Launch>, seq<bool>))
    requires |claimed| == |keys| && 0 <= i < |keys|
    ensures |r.1| == |keys|
    ensures r.0.None? ==> r.1 == claimed
    ensures r.0.Some? ==> !claimed[i] && Answers(v, keys[i]) && r.0.value.pairing.playerKey == keys[i]
    ensures r.0.Some? ==> PairingFits(v, r.0.value.pairing) && r.0.value.started == Starts(v, r.0.value.pairing)
    ensures r.0.Some? && r.0.value.pairing.opponent.ComputerOpponent? ==> r.1 == claimed[i := true]
    ensures r.0.Some? && r.0.value.pairing.opponent.HumanOpponent? ==>
      exists j :: i < j < |keys| && !claimed[j] && keys[j] == r.0.value.pairing.opponent.key &&
        r.1 == claimed[i := true][j := true]
  {
    if claimed[i] || !Answers(v, keys[i]) then (None, claimed)
    else
      var p := v.gamers[keys[i]];
      if p.opponentType == COMPUTER_PLAYER then
        var pairing := Pairing(keys[i], ComputerOpponent(p.difficulty), p.difficulty);
        (Some(Launch(pairing, Starts(v, pairing))), claimed[i := true])
      else
        match FindOpponent(keys, claimed, v, p, i + 1)
        case Found(j) =>
          var pairing := Pairing(keys[i], HumanOpponent(keys[j]), p.difficulty);
          (Some(Launch(pairing, Starts(v, pairing))), claimed[i := true][j := true])
        case _ => (None, claimed)
  }

  /** Which entries the outer scan launches: a claimed or silent entry is
      skipped, an answering computer seeker always plays the computer, and a
      human seeker plays exactly the entry the forward search finds. */
  lemma ScanEntryFollowsRule(keys: seq<int>, claimed: seq<bool>, v: View, i: int)
    requires |claimed| == |keys| && 0 <= i < |keys|
    ensures var r := ScanEntry(keys, claimed, v, i);
      claimed[i] || !Answers(v, keys[i]) ==> r == (None, claimed)
    ensures var r := ScanEntry(keys, claimed, v, i);
      !claimed[i] && Answers(v, keys[i]) && v.gamers[keys[i]].opponentType == COMPUTER_PLAYER ==>
        r.0.Some? && r.0.value.pairing.opponent.ComputerOpponent? && r.1 == claimed[i := true]
    ensures var r := ScanEntry(keys, claimed, v, i);
      !claimed[i] && Answers(v, keys[i]) && v.gamers[keys[i]].opponentType != COMPUTER_PLAYER ==>
        var f := FindOpponent(keys, claimed, v, v.gamers[keys[i]], i + 1);
        (r.0.Some? <==> f.Found?) &&
        (f.Found? ==> r.0.value.pairing.opponent == HumanOpponent(keys[f.index]) &&
                      r.1 == claimed[i := true][f.index := true])
  {
  }

  function AsList<T>(o: Option<T>): seq<T> {
    if o.Some? then [o.value] else []
  }

  /** The outer scan from index i to the end of the queue: the launches in
      order and the claim flags afterwards. */
  function ScanFrom(keys: seq<int>, claimed: seq<bool>, v: View, i: int): (r: (seq<Launch>, seq<bool>))
    requires |claimed| == |keys| && 0 <= i <= |keys|
    ensures |r.1| == |keys|
    ensures forall k :: 0 <= k < |keys| && claimed[k] ==> r.1[k]
    ensures forall k :: 0 <= k < i ==> r.1[k] == claimed[k]
    ensures forall k :: 0 <= k < |keys| && !claimed[k] && !Answers(v, keys[k]) ==> !r.1[k]
    ensures forall l :: l in r.0 ==> PairingFits(v, l.pairing) && l.started == Starts(v, l.pairing)
    decreases |keys| - i
  {
    if i == |keys| then ([], claimed)
    else
      var step := ScanEntry(keys, claimed, v, i);
      var rest := ScanFrom(keys, step.1, v, i + 1);
      (AsList(step.0) + rest.0, rest.1)
  }

  function NoneClaimed(n: nat): (c: seq<bool>)
    ensures |c| == n && forall k :: 0 <= k < n ==> !c[k]
  {
    seq(n, k => false)
  }

  /** One matchmaking cycle over the queue's keys, starting with no entry
      claimed: the launches in queue order and the entries claimed. */
  function Cycle(keys: seq<int>, v: View): (r: (seq<Launch>, seq<bool>))
    ensures |r.1| == |keys|
    ensures forall k :: 0 <= k < |keys| && !Answers(v, keys[k]) ==> !r.1[k]
    ensures forall l :: l in r.0 ==> PairingFits(v, l.pairing) && l.started == Starts(v, l.pairing)
  {
    ScanFrom(keys, NoneClaimed(|keys|), v, 0)
  }

  /** Sets a registered client's in-game flag; absent keys are left alone. */
  function SetInGame(g: map<int, Client>, key: int, flag: bool): (r: map<int, Client>)
    ensures r.Keys == g.Keys
    ensures key in g ==> r[key] == g[key].(inGame := flag)
    ensures forall k :: k in g && k != key ==> r[k] == g[k]
  {
    if key in g then g[key := g[key].(inGame := flag)] else g
  }

  /** The launch l marks the client under key k in game: the game started
      and k is its queued player or its human opponent. */
  predicate Marks(l: Launch, k: int) {
    l.started &&
    (l.pairing.playerKey == k || (l.pairing.opponent.HumanOpponent? && l.pairing.opponent.key == k))
  }

  /** A started game marks its human participants as in game. */
  function MarkLaunch(g: map<int, Client>, l: Launch): (r: map<int, Client>)
    ensures r.Keys == g.Keys
    ensures forall k :: k in g && Marks(l, k) ==> r[k] == g[k].(inGame := true)
    ensures forall k :: k in g && !Marks(l, k) ==> r[k] == g[k]
  {
    if !l.started then g
    else
      var g1 := SetInGame(g, l.pairing.playerKey, true);
      if l.pairing.opponent.HumanOpponent? then SetInGame(g1, l.pairing.opponent.key, true) else g1
  }

  /** The registry after the launches, in order. Only in-game flags
      change. */
  function MarkInGame(g: map<int, Client>, ls: seq<Launch>): (r: map<int, Client>)
    ensures r.Keys == g.Keys
    ensures forall k :: k in g ==> r[k] == g[k].(inGame := r[k].inGame)
    decreases |ls|
  {
    if ls == [] then g
    else MarkLaunch(MarkInGame(g, ls[..|ls| - 1]), ls[|ls| - 1])
  }

  /** Every client a started launch names is in game afterwards, and every
      client no started launch names keeps its record. */
  lemma {:induction false} MarkInGameMarksLaunched(g: map<int, Client>, ls: seq<Launch>)
    ensures var r := MarkInGame(g, ls);
      forall l, k :: l in ls && Marks(l, k) && k in g ==> r[k].inGame
    ensures var r := MarkInGame(g, ls);
      forall k :: k in g && (forall l :: l in ls ==> !Marks(l, k)) ==> r[k] == g[k]
    decreases |ls|
  {
    if ls != [] {
      var front := ls[..|ls| - 1];
      assert ls == front + [ls[|ls| - 1]];
      MarkInGameMarksLaunched(g, front);
    }
  }

  /** The keys of the queue's entries, in order. */
  function Keys(ws: seq<WaitingPlayer>): (keys: seq<int>)
    ensures |keys| == |ws| && forall k :: 0 <= k < |ws| ==> keys[k] == ws[k].key
  {
    seq(|ws|, k requires 0 <= k < |ws| => ws[k].key)
  }

  /** The entries whose flag is not set, in their original order. */
  function Unclaimed<T>(ws: seq<T>, claimed: seq<bool>): (r: seq<T>)
    requires |claimed| == |ws|
    ensures |r| <= |ws|
    ensures forall k :: 0 <= k < |ws| && !claimed[k] ==> ws[k] in r
    ensures forall x :: x in r ==> exists k :: 0 <= k < |ws| && ws[k] == x && !claimed[k]
  {
    if ws == [] then []
    else (if claimed[0] then [] else [ws[0]]) + Unclaimed(ws[1..], claimed[1..])
  }

  /** `List.removeAll`: drops every element that occurs in rs, keeping the
      order of the rest. */
  function RemoveAll<T(==)>(ws: seq<T>, rs: seq<T>): (r: seq<T>)
    ensures forall x :: x in r ==> x in ws && x !in rs
    ensures forall k :: 0 <= k < |ws| && ws[k] !in rs ==> ws[k] in r
  {
    if ws == [] then []
    else (if ws[0] in rs then [] else [ws[0]]) + RemoveAll(ws[1..], rs)
  }

  predicate Distinct<T(==)>(ws: seq<T>) {
    forall a, b :: 0 <= a < b < |ws| ==> ws[a] != ws[b]
  }

  /** Removing by identity the entries flagged as claimed is the same as
      keeping the unflagged ones. */
  lemma {:induction false} RemoveAllIsUnclaimed<T>(ws: seq<T>, rs: seq<T>, claimed: seq<bool>)
    requires |claimed| == |ws|
    requires forall k :: 0 <= k < |ws| ==> (ws[k] in rs <==> claimed[k])
    ensures RemoveAll(ws, rs) == Unclaimed(ws, claimed)
  {
    if ws != [] {
      RemoveAllIsUnclaimed(ws[1..], rs, claimed[1..]);
    }
  }

  /** Keeping some entries of a queue of distinct entries keeps them distinct. */
  lemma {:induction false} UnclaimedDistinct<T>(ws: seq<T>, claimed: seq<bool>)
    requires |claimed| == |ws| && Distinct(ws)
    ensures Distinct(Unclaimed(ws, claimed))
  {
    if ws != [] {
      UnclaimedDistinct(ws[1..], claimed[1..]);
      var tail := Unclaimed(ws[1..], claimed[1..]);
      if !claimed[0] {
        forall x | x in tail ensures x != ws[0] {
          var k :| 0 <= k < |ws[1..]| && ws[1..][k] == x && !claimed[1..][k];
          assert ws[k + 1] == x;
        }
        assert ws[0] !in tail;
        var r := [ws[0]] + tail;
        forall a, b | 0 <= a < b < |r| ensures r[a] != r[b] {
          if a == 0 {
            assert r[b] in tail;
          } else {
            assert r[a] == tail[a - 1] && r[b] == tail[b - 1];
          }
        }
      }
    }
  }

  /** One entry of the waiting queue: the player's key and the flag the
      matchmaker sets when it claims the entry. */
  class WaitingPlayer {
    const key: int
    var inGame: bool

    constructor (key: int, inGame: bool)
      ensures this.key == key && this.inGame == inGame
    {
      this.key := key;
      this.inGame := inGame;
    }
  }

  /** The lobby: the registry `gamers`, the queue `waitingPlayers` and the
      matchmaker's `removalList`, which is empty between cycles. */
  class NimServerLobby {
    var gamers: map<int, Client>
    var waitingPlayers: seq<WaitingPlayer>
    var removalList: seq<WaitingPlayer>

    /** Between operations: every client carries its registry key as player
        code, the queue holds distinct unclaimed entries and nothing is
        awaiting removal. */
    ghost predicate Valid()
      reads this, waitingPlayers
    {
      (forall k :: k in gamers ==> gamers[k].playerCode == k) &&
      Distinct(waitingPlayers) &&
      (forall k :: 0 <= k < |waitingPlayers| ==> !waitingPlayers[k].inGame) &&
      removalList == []
    }

    constructor ()
      ensures Valid() && gamers == map[] && waitingPlayers == []
    {
      gamers := map[];
      waitingPlayers := [];
      removalList := [];
    }

    /** Appends a fresh, unclaimed entry for playerKey. */
    method QueuePlayer(playerKey: int)
      requires Valid()
      modifies this
      ensures Valid() && gamers == old(gamers)
      ensures |waitingPlayers| == |old(waitingPlayers)| + 1
      ensures waitingPlayers[..|old(waitingPlayers)|] == old(waitingPlayers)
      ensures fresh(waitingPlayers[|old(waitingPlayers)|])
      ensures Keys(waitingPlayers) == Keys(old(waitingPlayers)) + [playerKey]
    {
      var entry := new WaitingPlayer(playerKey, false);
      waitingPlayers := waitingPlayers + [entry];
    }

    /** Registers a client under the first random draw that is not yet a key
        (`draws` are the successive values of `rand.nextInt()`), gives it that
        player code and queues it. When the client does not answer,
        `setPlayerCode` throws and nothing is registered. */
    method AddPlayer(client: Client, reachable: bool, draws: seq<int>) returns (key: int)
      requires Valid()
      requires exists n :: 0 <= n < |draws| && draws[n] !in gamers
      modifies this
      ensures Valid()
      ensures key !in old(gamers)
      ensures exists n :: 0 <= n < |draws| && key == draws[n] && forall m :: 0 <= m < n ==> draws[m] in old(gamers)
      ensures reachable ==> gamers == old(gamers)[key := client.(playerCode := key)]
      ensures reachable ==> Keys(waitingPlayers) == Keys(old(waitingPlayers)) + [key]
      ensures reachable ==> waitingPlayers[..|old(waitingPlayers)|] == old(waitingPlayers)
      ensures reachable ==> fresh(waitingPlayers[|old(waitingPlayers)|])
      ensures !reachable ==> gamers == old(gamers) && waitingPlayers == old(waitingPlayers)
    {
      var n := 0;
      key := draws[0];
      while key in gamers
        invariant 0 <= n < |draws| && key == draws[n]
        invariant forall m :: 0 <= m < n ==> draws[m] in gamers
        invariant exists m :: n <= m < |draws| && draws[m] !in gamers
        decreases |draws| - n
      {
        n := n + 1;
        key := draws[n];
      }
      if !reachable {
        return;
      }
      gamers := gamers[key := client.(playerCode := key)];
      QueuePlayer(key);
    }

    /** Removes playerCode from the registry, leaving the queue alone. A
        missing key makes `gamers.get(playerCode)` null and the call fails;
        a client that no longer answers makes the second `getName()` in the
        handler throw, so the key is not removed. */
    method LeaveLobby(playerCode: int, reachable: bool) returns (r: LeaveResult)
      requires Valid()
      modifies this
      ensures Valid() && waitingPlayers == old(waitingPlayers)
      ensures r == Left <==> playerCode in old(gamers) && reachable
      ensures r == NoSuchPlayer <==> playerCode !in old(gamers)
      ensures gamers == if r == Left then old(gamers) - {playerCode} else old(gamers)
    {
      if playerCode !in gamers {
        return NoSuchPlayer;
      }
      if !reachable {
        return ClientUnreachable;
      }
      gamers := gamers - {playerCode};
      r := Left;
    }

    /** The client's own `setInGameStatus`, reached through the handle the
        registry holds under code. */
    method SetClientInGameStatus(code: int, flag: bool)
      requires Valid()
      modifies this
      ensures Valid() && waitingPlayers == old(waitingPlayers)
      ensures gamers == SetInGame(old(gamers), code, flag)
    {
      gamers := SetInGame(gamers, code, flag);
    }

    /** The forward search of the scan for an opponent of player, from
        index `from`; `claimed` mirrors the entries' flags. */
    method SearchOpponent(v: View, player: Client, from: int, ghost claimed: seq<bool>) returns (r: Search)
      requires 0 <= from <= |waitingPlayers| && |claimed| == |waitingPlayers|
      requires forall k :: 0 <= k < |waitingPlayers| ==> waitingPlayers[k].inGame == claimed[k]
      ensures r == FindOpponent(Keys(waitingPlayers), claimed, v, player, from)
    {
      var tempOpponent := from;
      while tempOpponent < |waitingPlayers|
        invariant from <= tempOpponent <= |waitingPlayers|
        invariant FindOpponent(Keys(waitingPlayers), claimed, v, player, from)
               == FindOpponent(Keys(waitingPlayers), claimed, v, player, tempOpponent)
      {
        var queuedOpponent := waitingPlayers[tempOpponent];
        if !queuedOpponent.inGame {
          if queuedOpponent.key !in v.gamers || queuedOpponent.key in v.unreachable {
            return Aborted;
          }
          if Compatible(player, v.gamers[queuedOpponent.key]) {
            return Found(tempOpponent);
          }
        }
        tempOpponent := tempOpponent + 1;
      }
      r := NoOpponent;
    }

    /** The claim flags of a cycle, as the entries' `inGame` flags and the
        removal list record them. */
    ghost predicate Mirrors(claimed: seq<bool>)
      reads this, waitingPlayers
    {
      |claimed| == |waitingPlayers| &&
      (forall k :: 0 <= k < |waitingPlayers| ==> waitingPlayers[k].inGame == claimed[k]) &&
      (forall k :: 0 <= k < |waitingPlayers| ==> (waitingPlayers[k] in removalList <==> claimed[k])) &&
      (forall m :: 0 <= m < |removalList| ==> removalList[m] in waitingPlayers)
    }

    /** Flags the unclaimed entry at index i in game and records it for
        removal. */
    method Claim(i: int, ghost claimed: seq<bool>) returns (ghost claimed': seq<bool>)
      requires 0 <= i < |waitingPlayers| && Distinct(waitingPlayers)
      requires Mirrors(claimed) && !claimed[i]
      modifies this`removalList, waitingPlayers[i]
      ensures claimed' == claimed[i := true] && Mirrors(claimed')
    {
      var queued := waitingPlayers[i];
      queued.inGame := true;
      removalList := removalList + [queued];
      claimed' := claimed[i := true];
    }

    /** The body of the outer scan for the entry at index waitingPlayer:
        skip it if claimed, or if its player is missing or does not answer;
        otherwise claim it alone for a computer opponent, or claim it with
        the first fitting later entry. Claimed entries join removalList. */
    method ScanWaitingPlayer(v: View, waitingPlayer: int, ghost claimed: seq<bool>)
      returns (launch: Option<Launch>, ghost claimed': seq<bool>)
      requires 0 <= waitingPlayer < |waitingPlayers| && Distinct(waitingPlayers) && Mirrors(claimed)
      modifies this`removalList, waitingPlayers
      ensures (launch, claimed') == ScanEntry(Keys(waitingPlayers), claimed, v, waitingPlayer)
      ensures Mirrors(claimed')
    {
      launch, claimed' := None, claimed;
      var queuedPlayer := waitingPlayers[waitingPlayer];
      if queuedPlayer.inGame || queuedPlayer.key !in v.gamers || queuedPlayer.key in v.unreachable {
        return;
      }
      var player := v.gamers[queuedPlayer.key];
      if player.opponentType == COMPUTER_PLAYER {
        claimed' := Claim(waitingPlayer, claimed);
        var pairing := Pairing(queuedPlayer.key, ComputerOpponent(player.difficulty), player.difficulty);
        launch := Some(Launch(pairing, queuedPlayer.key !in v.lostBeforeStart));
      } else {
        launch, claimed' := PairWithOpponent(v, waitingPlayer, claimed);
      }
    }

    /** The human branch of the outer scan: search the rest of the queue
        for an opponent of the answering entry at index waitingPlayer and,
        when one is found, claim both entries. */
    method PairWithOpponent(v: View, waitingPlayer: int, ghost claimed: seq<bool>)
      returns (launch: Option<Launch>, ghost claimed': seq<bool>)
      requires 0 <= waitingPlayer < |waitingPlayers| && Distinct(waitingPlayers) && Mirrors(claimed)
      requires !claimed[waitingPlayer] && Answers(v, waitingPlayers[waitingPlayer].key)
      requires v.gamers[waitingPlayers[waitingPlayer].key].opponentType != COMPUTER_PLAYER
      modifies this`removalList, waitingPlayers
      ensures (launch, claimed') == ScanEntry(Keys(waitingPlayers), claimed, v, waitingPlayer)
      ensures Mirrors(claimed')
    {
      ghost var keys := Keys(waitingPlayers);
      ScanEntryFollowsRule(keys, claimed, v, waitingPlayer);
      launch, claimed' := None, claimed;
      var queuedPlayer := waitingPlayers[waitingPlayer];
      var player := v.gamers[queuedPlayer.key];
      var search := SearchOpponent(v, player, waitingPlayer + 1, claimed);
      if search.Found? {
        var queuedOpponent := waitingPlayers[search.index];
        claimed' := Claim(waitingPlayer, claimed);
        claimed' := Claim(search.index, claimed');
        var pairing := Pairing(queuedPlayer.key, HumanOpponent(queuedOpponent.key), player.difficulty);
        launch := Some(Launch(pairing, queuedPlayer.key !in v.lostBeforeStart && queuedOpponent.key !in v.lostBeforeStart));
      }
      assert keys == Keys(waitingPlayers);
    }

    /** One iteration of the matchmaking loop: scan the queue in order,
        claim and launch pairings, then remove the claimed entries. When the
        name listing before the removal meets an entry whose player has left,
        the matchmaking thread ends instead (`halted`), with the claimed
        entries still queued and flagged. */
    method ManageCycle(unreachable: set<int>, lostBeforeStart: set<int>) returns (launched: seq<Launch>, halted: bool)
      requires Valid()
      modifies this, waitingPlayers
      ensures var r := Cycle(Keys(old(waitingPlayers)), View(old(gamers), unreachable, lostBeforeStart));
        launched == r.0 &&
        (halted <==> ListingFails(Keys(old(waitingPlayers)), old(gamers), r.1)) &&
        (!halted ==> Valid() && waitingPlayers == Unclaimed(old(waitingPlayers), r.1)) &&
        (halted ==> waitingPlayers == old(waitingPlayers) &&
                    forall k :: 0 <= k < |waitingPlayers| ==> waitingPlayers[k].inGame == r.1[k])
      ensures gamers == MarkInGame(old(gamers), launched)
    {
      var view := View(gamers, unreachable, lostBeforeStart);
      ghost var ws := waitingPlayers;
      ghost var claimed;
      launched, claimed := ScanQueue(view);
      halted := RemoveClaimed(ws, claimed);
    }

    /** The outer scan of a cycle over the whole queue, launching as it goes. */
    method ScanQueue(view: View) returns (launched: seq<Launch>, ghost claimed: seq<bool>)
      requires Valid() && view.gamers == gamers
      modifies this`gamers, this`removalList, waitingPlayers
      ensures waitingPlayers == old(waitingPlayers) && Distinct(waitingPlayers)
      ensures (launched, claimed) == Cycle(Keys(waitingPlayers), view)
      ensures gamers == MarkInGame(old(gamers), launched)
      ensures Mirrors(claimed)
    {
      ghost var ws := waitingPlayers;
      ghost var keys := Keys(ws);
      claimed := NoneClaimed(|ws|);
      launched := [];
      assert [] + ScanFrom(keys, claimed, view, 0).0 == ScanFrom(keys, claimed, view, 0).0;
      assert CycleSoFar(keys, view, launched, claimed, 0);
      var waitingPlayer := 0;
      while waitingPlayer < |waitingPlayers|
        invariant waitingPlayers == ws && 0 <= waitingPlayer <= |ws| && |claimed| == |ws|
        invariant Distinct(ws) && Mirrors(claimed)
        invariant CycleSoFar(keys, view, launched, claimed, waitingPlayer)
        invariant gamers == MarkInGame(view.gamers, launched)
      {
        launched, claimed := ScanAndLaunch(view, waitingPlayer, launched, claimed);
        waitingPlayer := waitingPlayer + 1;
      }
      assert launched + [] == launched;
    }

    /** One pass of the outer scan, with the launch it makes: a started
        game marks its players in game. */
    method ScanAndLaunch(view: View, i: int, launched: seq<Launch>, ghost claimed: seq<bool>)
      returns (launched': seq<Launch>, ghost claimed': seq<bool>)
      requires 0 <= i < |waitingPlayers| && Distinct(waitingPlayers) && Mirrors(claimed)
      requires CycleSoFar(Keys(waitingPlayers), view, launched, claimed, i)
      requires gamers == MarkInGame(view.gamers, launched)
      modifies this`gamers, this`removalList, waitingPlayers
      ensures waitingPlayers == old(waitingPlayers) && Mirrors(claimed')
      ensures |claimed'| == |waitingPlayers| && CycleSoFar(Keys(waitingPlayers), view, launched', claimed', i + 1)
      ensures gamers == MarkInGame(view.gamers, launched')
    {
      var launch;
      launch, claimed' := ScanWaitingPlayer(view, i, claimed);
      CycleStep(Keys(waitingPlayers), view, launched, claimed, i, launch, claimed');
      MarkInGameAppend(view.gamers, launched, launch);
      if launch.Some? {
        gamers := MarkLaunch(gamers, launch.value);
      }
      launched' := launched + AsList(launch);
    }

    /** The end of a cycle. When the removal list is not empty, every queued
        player's name is listed (`gamers.get(p.key).getName()`): an entry
        whose key is no longer registered makes that a null dereference the
        handler does not catch, and the thread ends there. Otherwise
        `waitingPlayers.removeAll(removalList)` and `removalList.clear()`. */
    method RemoveClaimed(ghost ws: seq<WaitingPlayer>, ghost claimed: seq<bool>) returns (halted: bool)
      requires waitingPlayers == ws && |claimed| == |ws| && Distinct(ws)
      requires forall k :: 0 <= k < |ws| ==> ws[k].inGame == claimed[k]
      requires forall k :: 0 <= k < |ws| ==> (ws[k] in removalList <==> claimed[k])
      requires forall m :: 0 <= m < |removalList| ==> removalList[m] in ws
      modifies this`waitingPlayers, this`removalList
      ensures halted <==> ListingFails(Keys(ws), gamers, claimed)
      ensures halted ==> waitingPlayers == ws && removalList == old(removalList)
      ensures !halted ==> waitingPlayers == Unclaimed(ws, claimed) && removalList == []
      ensures !halted ==> Distinct(waitingPlayers)
      ensures !halted ==> forall m :: 0 <= m < |waitingPlayers| ==> !waitingPlayers[m].inGame
    {
      halted := false;
      if removalList != [] {
        assert exists k :: 0 <= k < |ws| && claimed[k] by {
          assert removalList[0] in ws;
          var k :| 0 <= k < |ws| && ws[k] == removalList[0];
        }
        halted := ListNames();
        if halted {
          return;
        }
      } else {
        assert !exists k :: 0 <= k < |ws| && claimed[k];
      }
      DropClaimed(ws, claimed);
    }

    /** `waitingPlayers.removeAll(removalList)` and `removalList.clear()`
        (a queue without claims is left as it is). */
    method DropClaimed(ghost ws: seq<WaitingPlayer>, ghost claimed: seq<bool>)
      requires waitingPlayers == ws && |claimed| == |ws| && Distinct(ws)
      requires forall k :: 0 <= k < |ws| ==> ws[k].inGame == claimed[k]
      requires forall k :: 0 <= k < |ws| ==> (ws[k] in removalList <==> claimed[k])
      requires forall m :: 0 <= m < |removalList| ==> removalList[m] in ws
      modifies this`waitingPlayers, this`removalList
      ensures waitingPlayers == Unclaimed(ws, claimed) && removalList == []
      ensures Distinct(waitingPlayers)
      ensures forall m :: 0 <= m < |waitingPlayers| ==> !waitingPlayers[m].inGame
    {
      RemoveAllIsUnclaimed(ws, removalList, claimed);
      UnclaimedDistinct(ws, claimed);
      if removalList != [] {
        waitingPlayers := RemoveAll(waitingPlayers, removalList);
        removalList := [];
      } else {
        RemoveNothing(ws);
      }
      UnclaimedNotInGame(ws, claimed);
    }

    /** The listing of every queued player's name: it stops with an
        uncaught null dereference at the first entry whose key is no longer
        registered. */
    method ListNames() returns (halted: bool)
      ensures halted <==> exists k :: 0 <= k < |waitingPlayers| && Keys(waitingPlayers)[k] !in gamers
    {
      var i := 0;
      while i < |waitingPlayers|
        invariant 0 <= i <= |waitingPlayers|
        invariant forall m :: 0 <= m < i ==> waitingPlayers[m].key in gamers
      {
        if waitingPlayers[i].key !in gamers {
          assert Keys(waitingPlayers)[i] !in gamers;
          return true;
        }
        i := i + 1;
      }
      halted := false;
    }
  }

  /** The listing before the removal fails: something was claimed, so the
      removal list is not empty, and some queued key is not registered. */
  predicate ListingFails(keys: seq<int>, g: map<int, Client>, claimed: seq<bool>)
    requires |claimed| == |keys|
  {
    (exists k :: 0 <= k < |keys| && claimed[k]) &&
    (exists k :: 0 <= k < |keys| && keys[k] !in g)
  }

  /** The launches so far followed by the rest of the scan make up the cycle. */
  ghost predicate CycleSoFar(keys: seq<int>, v: View, launched: seq<Launch>, claimed: seq<bool>, i: int)
    requires |claimed| == |keys| && 0 <= i <= |keys|
  {
    Cycle(keys, v) == (launched + ScanFrom(keys, claimed, v, i).0, ScanFrom(keys, claimed, v, i).1)
  }

  lemma CycleStep(keys: seq<int>, v: View, launched: seq<Launch>, claimed: seq<bool>, i: int,
                  launch: Option<Launch>, claimed': seq<bool>)
    requires |claimed| == |keys| && 0 <= i < |keys|
    requires CycleSoFar(keys, v, launched, claimed, i)
    requires (launch, claimed') == ScanEntry(keys, claimed, v, i)
    ensures |claimed'| == |keys| && CycleSoFar(keys, v, launched + AsList(launch), claimed', i + 1)
  {
    var rest := ScanFrom(keys, claimed', v, i + 1);
    assert ScanFrom(keys, claimed, v, i) == (AsList(launch) + rest.0, rest.1);
    assert launched + (AsList(launch) + rest.0) == (launched + AsList(launch)) + rest.0;
  }

  lemma MarkInGameAppend(g: map<int, Client>, ls: seq<Launch>, o: Option<Launch>)
    ensures MarkInGame(g, ls + AsList(o)) ==
      if o.Some? then MarkLaunch(MarkInGame(g, ls), o.value) else MarkInGame(g, ls)
  {
    if o.Some? {
      assert (ls + [o.value])[..|ls|] == ls;
    } else {
      assert ls + AsList(o) == ls;
    }
  }

  /** Entries left unclaimed still carry a clear in-game flag. */
  lemma UnclaimedNotInGame(ws: seq<WaitingPlayer>, claimed: seq<bool>)
    requires |claimed| == |ws|
    requires forall k :: 0 <= k < |ws| ==> ws[k].inGame == claimed[k]
    ensures forall m :: 0 <= m < |Unclaimed(ws, claimed)| ==> !Unclaimed(ws, claimed)[m].inGame
  {
    var r := Unclaimed(ws, claimed);
    forall m | 0 <= m < |r| ensures !r[m].inGame {
      assert r[m] in r;
      var k :| 0 <= k < |ws| && ws[k] == r[m] && !claimed[k];
    }
  }

  lemma {:induction false} RemoveNothing<T>(ws: seq<T>)
    ensures RemoveAll(ws, []) == ws
  {
    if ws != [] {
      RemoveNothing(ws[1..]);
    }
  }
}
