/** The automated opponent: its move strategy and its player record
    (src/player/ComputerPlayer.java). */
module ComputerPlayers {
  import opened Constants

  /** n is one of 1, 2, 4, 8, ... */
  predicate IsPowerOfTwo(n: int)
    decreases if n < 1 then 0 else n
  {
    n == 1 || (n >= 2 && n % 2 == 0 && IsPowerOfTwo(n / 2))
  }

  /** pot is the largest power of two that does not exceed bagSize. */
  predicate IsLargestPowerOfTwoAtMost(pot: int, bagSize: int) {
    IsPowerOfTwo(pot) && pot <= bagSize < 2 * pot
  }

  /** A bag the hard strategy wants to hand to its opponent: 2^k - 1 marbles. */
  predicate IsLosingBag(bagSize: int) {
    IsPowerOfTwo(bagSize + 1)
  }

  /** Two distinct powers of two are at least a factor two apart. */
  lemma {:induction false} PowerOfTwoGap(x: int, y: int)
    requires IsPowerOfTwo(x) && IsPowerOfTwo(y) && x < y
    ensures 2 * x <= y
  {
    if x != 1 {
      PowerOfTwoGap(x / 2, y / 2);
    }
  }

  /** The largest power of two not above a bag is unique. */
  lemma LargestPowerOfTwoIsUnique(p: int, q: int, bagSize: int)
    requires IsLargestPowerOfTwoAtMost(p, bagSize) && IsLargestPowerOfTwoAtMost(q, bagSize)
    ensures p == q
  {
    if p < q {
      PowerOfTwoGap(p, q);
    } else if q < p {
      PowerOfTwoGap(q, p);
    }
  }

  /** The specification of the doubling search: the largest power of two
      not above bagSize, for a bag of at least one marble. */
  function PowerOfTwoAtMost(bagSize: int): (pot: int)
    requires bagSize >= 1
    ensures IsLargestPowerOfTwoAtMost(pot, bagSize)
    ensures bagSize >= 2 ==> pot >= 2
    decreases bagSize
  {
    if bagSize == 1 then 1 else 2 * PowerOfTwoAtMost(bagSize / 2)
  }

  /** The number of marbles the computer takes from a bag of bagSize.
      `roll` is the value `rand.nextInt(bagSize / 2)` produces, used by the
      easy tier and by the hard tier when the bag is already 2 * pot - 1. */
  function ComputerMove(difficulty: int, bagSize: int, roll: int): (marbles: int)
    requires bagSize >= 2 ==> 0 <= roll < bagSize / 2
    ensures bagSize < 2 ==> marbles == 0
    ensures bagSize >= 2 ==> 1 <= marbles <= bagSize / 2
    ensures bagSize >= 2 && difficulty == EASY ==> marbles == roll + 1
  {
    if bagSize < 2 then 0
    else if difficulty == EASY then roll + 1
    else
      var pot := PowerOfTwoAtMost(bagSize);
      if bagSize == pot * 2 - 1 then roll + 1 else bagSize - pot + 1
  }

  /** Hard tier, bag not of the form 2 * pot - 1: the move leaves the
      opponent exactly pot - 1 marbles, a bag of the form 2^k - 1. */
  lemma HardMoveLeavesLosingBag(difficulty: int, bagSize: int, roll: int, pot: int)
    requires difficulty != EASY && bagSize >= 2 && 0 <= roll < bagSize / 2
    requires IsLargestPowerOfTwoAtMost(pot, bagSize) && bagSize != 2 * pot - 1
    ensures ComputerMove(difficulty, bagSize, roll) == bagSize - pot + 1
    ensures bagSize - ComputerMove(difficulty, bagSize, roll) == pot - 1
    ensures IsLosingBag(bagSize - ComputerMove(difficulty, bagSize, roll))
  {
    LargestPowerOfTwoIsUnique(pot, PowerOfTwoAtMost(bagSize), bagSize);
  }

  /** Hard tier, bag already 2 * pot - 1: the move is the random legal one. */
  lemma HardMoveOnLosingBagIsRandom(difficulty: int, bagSize: int, roll: int)
    requires difficulty != EASY && bagSize >= 2 && 0 <= roll < bagSize / 2
    requires IsLosingBag(bagSize)
    ensures ComputerMove(difficulty, bagSize, roll) == roll + 1
    ensures 1 <= ComputerMove(difficulty, bagSize, roll) <= bagSize / 2
  {
    var pot := PowerOfTwoAtMost(bagSize);
    assert IsLargestPowerOfTwoAtMost((bagSize + 1) / 2, bagSize) by {
      assert bagSize + 1 != 1;
    }
    LargestPowerOfTwoIsUnique(pot, (bagSize + 1) / 2, bagSize);
  }

  /** From a bag of 2^k - 1 marbles (k >= 2) every legal take leaves a bag
      that is not of the form 2^j - 1. */
  lemma EveryMoveFromLosingBagLeavesWinningBag(bagSize: int, take: int)
    requires IsLosingBag(bagSize) && bagSize >= 3
    requires 1 <= take <= bagSize / 2
    ensures !IsLosingBag(bagSize - take)
  {
    var pot := (bagSize + 1) / 2;
    assert IsPowerOfTwo(pot) by {
      assert bagSize + 1 != 1;
    }
    var left := bagSize - take + 1;
    assert pot < left < 2 * pot;
    if IsPowerOfTwo(left) {
      PowerOfTwoGap(pot, left);
    }
  }

  /** The misère game the engine plays: the player to move on a bag of
      bagSize marbles can force a win (leave exactly 1 marble, or leave a
      bag from which the opponent cannot force a win). */
  ghost predicate MoverWins(bagSize: int)
    decreases if bagSize < 0 then 0 else bagSize
  {
    bagSize >= 2 &&
    exists left :: bagSize - bagSize / 2 <= left <= bagSize - 1 &&
      (left == 1 || !MoverWins(left))
  }

  /** The hard strategy's rationale: from a bag of at least two marbles the
      mover can force a win exactly when the bag is not 2^k - 1. */
  lemma {:induction false} MoverWinsIffNotLosingBag(bagSize: int)
    requires bagSize >= 2
    ensures MoverWins(bagSize) <==> !IsLosingBag(bagSize)
    decreases bagSize
  {
    if IsLosingBag(bagSize) {
      forall left | bagSize - bagSize / 2 <= left <= bagSize - 1
        ensures left != 1 && MoverWins(left)
      {
        EveryMoveFromLosingBagLeavesWinningBag(bagSize, bagSize - left);
        MoverWinsIffNotLosingBag(left);
      }
    } else {
      var pot := PowerOfTwoAtMost(bagSize);
      var left := pot - 1;
      assert bagSize != 2 * pot - 1;
      if left != 1 {
        MoverWinsIffNotLosingBag(left);
      }
      assert bagSize - bagSize / 2 <= left <= bagSize - 1;
      assert left == 1 || !MoverWins(left);
      assert !MoverWins(1);
      assert MoverWins(bagSize);
    }
  }

  /** Hard tier from a bag the mover can win: the computer's move hands the
      opponent a position from which the opponent cannot force a win. */
  lemma HardMoveIsWinning(difficulty: int, bagSize: int, roll: int)
    requires difficulty != EASY && bagSize >= 2 && 0 <= roll < bagSize / 2
    requires MoverWins(bagSize)
    ensures var left := bagSize - ComputerMove(difficulty, bagSize, roll);
      left == 1 || (left >= 2 && !MoverWins(left))
  {
    MoverWinsIffNotLosingBag(bagSize);
    var pot := PowerOfTwoAtMost(bagSize);
    HardMoveLeavesLosingBag(difficulty, bagSize, roll, pot);
    if pot - 1 != 1 {
      MoverWinsIffNotLosingBag(pot - 1);
    }
  }

  /** A computer player (src/player/ComputerPlayer.java). The name, type,
      difficulty and preferred opponent are fixed at construction. */
  class ComputerPlayer {
    const name: string
    const playerType: int
    const difficulty: int
    const opponentType: int
    var inGame: bool
    var gameCode: int

    constructor (name: string, difficulty: int)
      ensures this.name == name && this.difficulty == difficulty
      ensures playerType == COMPUTER_PLAYER && opponentType == HUMAN_PLAYER
      ensures !GetIsHuman() && GetOpponentType() == HUMAN_PLAYER
      ensures GetPlayerCode() == -1 && !GetInGameStatus()
    {
      this.name := name;
      this.difficulty := difficulty;
      playerType := COMPUTER_PLAYER;
      opponentType := HUMAN_PLAYER;
      inGame := false;
      gameCode := -1;
    }

    function GetIsHuman(): bool { false }

    function GetOpponentType(): int { opponentType }

    function GetDifficulty(): int { difficulty }

    function GetName(): string { name }

    function GetPlayerCode(): int reads this { gameCode }

    function GetInGameStatus(): bool reads this { inGame }

    method SetPlayerCode(code: int)
      modifies this`gameCode
      ensures GetPlayerCode() == code
    {
      gameCode := code;
    }

    /** The computer keeps no in-game flag of its own: the call changes nothing. */
    method SetInGameStatus(inGameFlag: bool)
      ensures GetInGameStatus() == old(GetInGameStatus())
    {
    }

    /** The computer never asks for a rematch. */
    method PlayAgain() returns (again: bool)
      ensures !again
    {
      again := false;
    }

    /** How many marbles to take from a bag of bagSize; `roll` stands for
        the random draw in [0, bagSize / 2). */
    method GetMarbles(bagSize: int, roll: int) returns (marbles: int)
      requires bagSize >= 2 ==> 0 <= roll < bagSize / 2
      ensures marbles == ComputerMove(difficulty, bagSize, roll)
    {
      if bagSize < 2 {
        return 0;
      }
      var marbleMax := bagSize / 2;
      if difficulty == EASY {
        return roll + 1;
      }
      var pot := 0;
      var count := 2;
      while count <= bagSize
        invariant IsPowerOfTwo(count) && count >= 2
        invariant pot == 0 ==> count == 2
        invariant pot != 0 ==> count == 2 * pot && pot <= bagSize
        decreases bagSize - count
      {
        pot := count;
        count := count * 2;
      }
      LargestPowerOfTwoIsUnique(pot, PowerOfTwoAtMost(bagSize), bagSize);
      if bagSize == pot * 2 - 1 {
        marbles := roll + 1;
      } else {
        marbles := bagSize - pot + 1;
      }
    }
  }
}
