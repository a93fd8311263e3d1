/** The integer codes the lobby, the players and the game share
    (src/constants/Constants.java). */
module Constants {
  /** Difficulty tiers. */
  const EASY: int := 1
  const HARD: int := 2

  /** Player (and preferred opponent) types. */
  const HUMAN_PLAYER: int := 1
  const COMPUTER_PLAYER: int := 2
}
