/**
 The game: its coarse mode, the levels it can show, the index of the level
 being shown, and one "already handled" flag per keyboard key.
 */
module Games {
  import opened GameLevels

  datatype GameState = GameActive | GameMenu | GameWin

  class Game {
    var state: GameState
    var levels: seq<GameLevel>
    var currentLevel: nat
    /** Indexed by key code: true while a pressed key has been acted on and not yet released. */
    var keysProcessed: array<bool>

    /** A new game starts in the menu, on the first level, with no key flagged. */
    constructor (levels: seq<GameLevel>, keyCount: nat)
      ensures state == GameMenu
      ensures this.levels == levels && currentLevel == 0
      ensures fresh(keysProcessed) && keysProcessed.Length == keyCount
      ensures forall k :: 0 <= k < keyCount ==> !keysProcessed[k]
    {
      state := GameMenu;
      this.levels := levels;
      currentLevel := 0;
      keysProcessed := new bool[keyCount](_ => false);
    }
  }
}
