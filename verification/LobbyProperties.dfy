/** What one matchmaking cycle guarantees, stated over the Cycle
    specification that ManageCycle is proved to follow. */
module LobbyProperties {
  import opened Constants
  import opened Lobby

  /** The queued player answers and asks for a computer opponent. */
  predicate SeeksComputer(v: View, key: int) {
    Answers(v, key) && v.gamers[key].opponentType == COMPUTER_PLAYER
  }

  /** The game a computer-seeking player is given. */
  function SoloPairing(v: View, key: int): Pairing
    requires key in v.gamers
  {
    Pairing(key, ComputerOpponent(v.gamers[key].difficulty), v.gamers[key].difficulty)
  }

  /** No human-seeking player ever claims a computer-seeking one, so every
      unclaimed computer seeker from index i on is claimed by its own scan
      step and given a game against the computer at its difficulty. */
  lemma {:induction false} ComputerSeekersLaunched(keys: seq<int>, claimed: seq<bool>, v: View, i: int)
    requires |claimed| == |keys| && 0 <= i <= |keys|
    ensures var r := ScanFrom(keys, claimed, v, i);
      forall k :: i <= k < |keys| && !claimed[k] && SeeksComputer(v, keys[k]) ==>
        r.1[k] && Launch(SoloPairing(v, keys[k]), Starts(v, SoloPairing(v, keys[k]))) in r.0
    decreases |keys| - i
  {
    if i < |keys| {
      var step := ScanEntry(keys, claimed, v, i);
      var rest := ScanFrom(keys, step.1, v, i + 1);
      var r := ScanFrom(keys, claimed, v, i);
      assert r == (AsList(step.0) + rest.0, rest.1);
      ComputerSeekersLaunched(keys, step.1, v, i + 1);
      forall k | i <= k < |keys| && !claimed[k] && SeeksComputer(v, keys[k])
        ensures r.1[k] && Launch(SoloPairing(v, keys[k]), Starts(v, SoloPairing(v, keys[k]))) in r.0
      {
        if k == i {
          var l := Launch(SoloPairing(v, keys[k]), Starts(v, SoloPairing(v, keys[k])));
          assert step == (Some(l), claimed[i := true]);
          assert r.0[0] == l;
        } else {
          assert !step.1[k];
        }
      }
    }
  }

  /** The claim flags when the cycle's scan reaches index i. */
  function Reached(keys: seq<int>, v: View, i: int): (c: seq<bool>)
    requires 0 <= i <= |keys|
    ensures |c| == |keys|
    decreases i
  {
    if i == 0 then NoneClaimed(|keys|)
    else ScanEntry(keys, Reached(keys, v, i - 1), v, i - 1).1
  }

  /** The claims the cycle makes from index i on are its final claims, and
      its launches from there on are among the cycle's launches. */
  lemma {:induction false} CycleFromReached(keys: seq<int>, v: View, i: int)
    requires 0 <= i <= |keys|
    ensures var r := ScanFrom(keys, Reached(keys, v, i), v, i);
      r.1 == Cycle(keys, v).1 && forall l :: l in r.0 ==> l in Cycle(keys, v).0
    decreases i
  {
    if i > 0 {
      CycleFromReached(keys, v, i - 1);
      var c := Reached(keys, v, i - 1);
      var step := ScanEntry(keys, c, v, i - 1);
      var rest := ScanFrom(keys, step.1, v, i);
      assert ScanFrom(keys, c, v, i - 1) == (AsList(step.0) + rest.0, rest.1);
    }
  }

  /** First fit for human seekers, over the whole cycle: when the scan
      reaches an unclaimed, answering, human-seeking entry whose forward
      search finds the entry at j, the cycle claims both and launches the
      player against that opponent at the player's difficulty. */
  lemma HumanPairLaunched(keys: seq<int>, v: View, i: int)
    requires 0 <= i < |keys| && !Reached(keys, v, i)[i]
    requires Answers(v, keys[i]) && v.gamers[keys[i]].opponentType != COMPUTER_PLAYER
    requires FindOpponent(keys, Reached(keys, v, i), v, v.gamers[keys[i]], i + 1).Found?
    ensures var j := FindOpponent(keys, Reached(keys, v, i), v, v.gamers[keys[i]], i + 1).index;
      var pairing := Pairing(keys[i], HumanOpponent(keys[j]), v.gamers[keys[i]].difficulty);
      Compatible(v.gamers[keys[i]], v.gamers[keys[j]]) &&
      Cycle(keys, v).1[i] && Cycle(keys, v).1[j] && Launch(pairing, Starts(v, pairing)) in Cycle(keys, v).0
  {
    var c := Reached(keys, v, i);
    var step := ScanEntry(keys, c, v, i);
    ScanEntryFollowsRule(keys, c, v, i);
    var rest := ScanFrom(keys, step.1, v, i + 1);
    assert ScanFrom(keys, c, v, i) == (AsList(step.0) + rest.0, rest.1);
    assert step.0.value in ScanFrom(keys, c, v, i).0;
    CycleFromReached(keys, v, i);
  }

  /** Over the whole cycle: a human seeker whose search, when the scan
      reaches it, finds no opponent stays unclaimed and so stays queued. */
  lemma CycleKeepsUnmatchedHuman(keys: seq<int>, v: View, i: int)
    requires 0 <= i < |keys| && !Reached(keys, v, i)[i]
    requires Answers(v, keys[i]) && v.gamers[keys[i]].opponentType != COMPUTER_PLAYER
    requires !FindOpponent(keys, Reached(keys, v, i), v, v.gamers[keys[i]], i + 1).Found?
    ensures !Cycle(keys, v).1[i]
  {
    UnmatchedHumanStays(keys, Reached(keys, v, i), v, i);
    CycleFromReached(keys, v, i);
  }

  /** Every entry whose player answers and asks for the computer is claimed
      in the cycle and launched against the computer at its own difficulty. */
  lemma CycleLaunchesComputerSeekers(keys: seq<int>, v: View, k: int)
    requires 0 <= k < |keys| && SeeksComputer(v, keys[k])
    ensures Cycle(keys, v).1[k]
    ensures Launch(SoloPairing(v, keys[k]), Starts(v, SoloPairing(v, keys[k]))) in Cycle(keys, v).0
  {
    ComputerSeekersLaunched(keys, NoneClaimed(|keys|), v, 0);
  }

  /** An entry whose player is gone from the registry, or does not answer, is
      never claimed, so it stays in the queue for the next cycle. */
  lemma CycleKeepsSilentEntries(keys: seq<int>, v: View, k: int)
    requires 0 <= k < |keys| && !Answers(v, keys[k])
    ensures !Cycle(keys, v).1[k]
  {
  }

  /** A human-seeking player whose forward search finds no opponent is left
      unclaimed: later scan steps only search forward of themselves. */
  lemma {:induction false} UnmatchedHumanStays(keys: seq<int>, claimed: seq<bool>, v: View, i: int)
    requires |claimed| == |keys| && 0 <= i < |keys| && !claimed[i]
    requires Answers(v, keys[i]) && v.gamers[keys[i]].opponentType != COMPUTER_PLAYER
    requires !FindOpponent(keys, claimed, v, v.gamers[keys[i]], i + 1).Found?
    ensures !ScanFrom(keys, claimed, v, i).1[i]
    ensures var r := ScanFrom(keys, claimed, v, i);
      r.0 == ScanFrom(keys, claimed, v, i + 1).0
  {
    var step := ScanEntry(keys, claimed, v, i);
    assert step == (None, claimed);
    var rest := ScanFrom(keys, claimed, v, i + 1);
    assert ScanFrom(keys, claimed, v, i) == ([] + rest.0, rest.1);
    assert [] + rest.0 == rest.0;
  }

  /** Number of claimed entries. */
  function Count(c: seq<bool>): nat {
    if c == [] then 0 else (if c[0] then 1 else 0) + Count(c[1..])
  }

  /** Number of queue entries a launch takes. */
  function SeatsOf(l: Launch): nat {
    if l.pairing.opponent.HumanOpponent? then 2 else 1
  }

  function Seats(ls: seq<Launch>): nat {
    if ls == [] then 0 else SeatsOf(ls[0]) + Seats(ls[1..])
  }

  lemma {:induction false} CountClaimOne(c: seq<bool>, i: int)
    requires 0 <= i < |c| && !c[i]
    ensures Count(c[i := true]) == Count(c) + 1
    decreases |c|
  {
    if i > 0 {
      assert c[i := true][1..] == c[1..][i - 1 := true];
      CountClaimOne(c[1..], i - 1);
    }
  }

  /** One scan step claims exactly the seats of the game it launches. */
  lemma EntryClaimsMatchSeats(keys: seq<int>, claimed: seq<bool>, v: View, i: int)
    requires |claimed| == |keys| && 0 <= i < |keys|
    ensures var step := ScanEntry(keys, claimed, v, i);
      Count(step.1) == Count(claimed) + Seats(AsList(step.0))
  {
    var step := ScanEntry(keys, claimed, v, i);
    if step.0.Some? {
      var l := step.0.value;
      assert Seats([l]) == SeatsOf(l);
      CountClaimOne(claimed, i);
      if l.pairing.opponent.HumanOpponent? {
        var j :| i < j < |keys| && !claimed[j] && keys[j] == l.pairing.opponent.key &&
          step.1 == claimed[i := true][j := true];
        CountClaimOne(claimed[i := true], j);
      }
    }
  }

  lemma SeatsAppend(o: Option<Launch>, rest: seq<Launch>)
    ensures Seats(AsList(o) + rest) == Seats(AsList(o)) + Seats(rest)
  {
    if o.Some? {
      assert (AsList(o) + rest)[1..] == rest;
    } else {
      assert AsList(o) + rest == rest;
    }
  }

  /** No entry is claimed twice: the claims made from index i on are exactly
      the seats the launches take, one for a game against the computer and
      two for a game between humans. */
  lemma {:induction false} ClaimsMatchSeats(keys: seq<int>, claimed: seq<bool>, v: View, i: int)
    requires |claimed| == |keys| && 0 <= i <= |keys|
    ensures var r := ScanFrom(keys, claimed, v, i);
      Count(r.1) == Count(claimed) + Seats(r.0)
    decreases |keys| - i
  {
    if i < |keys| {
      var step := ScanEntry(keys, claimed, v, i);
      var rest := ScanFrom(keys, step.1, v, i + 1);
      assert ScanFrom(keys, claimed, v, i) == (AsList(step.0) + rest.0, rest.1);
      ClaimsMatchSeats(keys, step.1, v, i + 1);
      EntryClaimsMatchSeats(keys, claimed, v, i);
      SeatsAppend(step.0, rest.0);
    }
  }

  /** Over a whole cycle: the entries removed from the queue number exactly
      the seats of the games launched. */
  lemma CycleClaimsMatchSeats(keys: seq<int>, v: View)
    ensures Count(Cycle(keys, v).1) == Seats(Cycle(keys, v).0)
  {
    ClaimsMatchSeats(keys, NoneClaimed(|keys|), v, 0);
    assert Count(NoneClaimed(|keys|)) == 0 by { NoneCounted(|keys|); }
  }

  lemma {:induction false} NoneCounted(n: nat)
    ensures Count(NoneClaimed(n)) == 0
  {
    if n > 0 {
      assert NoneClaimed(n)[1..] == NoneClaimed(n - 1);
      NoneCounted(n - 1);
    }
  }

  /** A queue A (easy, human), B (hard, human), C (easy, human), all answering:
      A is paired with C, the first compatible entry after it, and B, for
      whom nobody is left, stays queued. */
  lemma ThreePlayerCycle(v: View)
    requires v.unreachable == {} && v.lostBeforeStart == {}
    requires v.gamers == map[
      1 := Client("A", EASY, HUMAN_PLAYER, 1, false),
      2 := Client("B", HARD, HUMAN_PLAYER, 2, false),
      3 := Client("C", EASY, HUMAN_PLAYER, 3, false)]
    ensures Cycle([1, 2, 3], v) == ([Launch(Pairing(1, HumanOpponent(3), EASY), true)], [true, false, true])
  {
    var keys := [1, 2, 3];
    var none := [false, false, false];
    assert NoneClaimed(3) == none;
    var a := v.gamers[1];
    assert FindOpponent(keys, none, v, a, 3) == NoOpponent;
    assert FindOpponent(keys, none, v, a, 2) == Found(2);
    assert FindOpponent(keys, none, v, a, 1) == Found(2);
    var after := [true, false, true];
    assert none[0 := true][2 := true] == after;
    var l := Launch(Pairing(1, HumanOpponent(3), EASY), true);
    assert ScanEntry(keys, none, v, 0) == (Some(l), after);
    var b := v.gamers[2];
    assert FindOpponent(keys, after, v, b, 3) == NoOpponent;
    assert FindOpponent(keys, after, v, b, 2) == NoOpponent;
    assert ScanEntry(keys, after, v, 1) == (None, after);
    assert ScanEntry(keys, after, v, 2) == (None, after);
    var nothing: seq<Launch> := [];
    assert AsList<Launch>(None) + nothing == nothing;
    assert ScanFrom(keys, after, v, 3) == (nothing, after);
    assert ScanFrom(keys, after, v, 2) == (nothing, after);
    assert ScanFrom(keys, after, v, 1) == (nothing, after);
    assert AsList(Some(l)) + nothing == [l];
    assert ScanFrom(keys, none, v, 0) == ([l], after);
  }

  /** A queue holding a computer-seeking player and, behind it, the entry of
      a player who has since left the registry: the first is claimed, so the
      name listing runs and reaches the second, and matchmaking stops with
      both entries still queued. */
  lemma LeftPlayerStopsMatchmaking(v: View, c: Client)
    requires v.unreachable == {} && v.lostBeforeStart == {}
    requires v.gamers == map[1 := c] && c.opponentType == COMPUTER_PLAYER
    ensures Cycle([1, 2], v).1 == [true, false]
    ensures ListingFails([1, 2], v.gamers, Cycle([1, 2], v).1)
  {
    var keys := [1, 2];
    assert SeeksComputer(v, keys[0]);
    CycleLaunchesComputerSeekers(keys, v, 0);
    CycleKeepsSilentEntries(keys, v, 1);
    assert Cycle(keys, v).1 == [true, false];
    assert keys[1] !in v.gamers;
  }
}
