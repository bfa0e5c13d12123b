/** The three levels, their grid shapes, the image pools per level, and the
    title screen that selects a level and remembers the last cleared one
    (components/Game.tsx:9-62, 108-130). */
module Levels {
  import opened Cards

  datatype Level = L1 | L285 | L28285

  /** The level's number as the game shows and compares it. */
  function Number(level: Level): nat
  {
    match level
    case L1 => 1
    case L285 => 285
    case L28285 => 28285
  }

  /** A grid shape; the CSS class name of the table is left out. */
  datatype LevelConfig = LevelConfig(columns: nat, rows: nat)

  /** The number of image pairs a grid holds (`(columns * rows) / 2`, a whole
      number for every level). */
  function PairCount(config: LevelConfig): nat
  {
    config.columns * config.rows / 2
  }

  /** `levelConfigs`: every grid holds a whole, positive number of pairs. */
  function LevelConfigOf(level: Level): (c: LevelConfig)
    ensures c.columns * c.rows == 2 * PairCount(c)
    ensures PairCount(c) >= 4
  {
    match level
    case L1 => LevelConfig(4, 2)
    case L285 => LevelConfig(5, 2)
    case L28285 => LevelConfig(8, 3)
  }

  /** The image pools of the three levels (`LevelImages`). */
  datatype LevelImages = LevelImages(level1: seq<Image>, level285: seq<Image>, level28285: seq<Image>)

  /** `props.images[props.level]` */
  function ImagesFor(images: LevelImages, level: Level): seq<Image>
  {
    match level
    case L1 => images.level1
    case L285 => images.level285
    case L28285 => images.level28285
  }

  /** `(props.clearedLevel ?? 0) >= 285`: level 28285 is open exactly when the
      last cleared level is 285 or 28285. */
  function IsLevel28285Unlocked(clearedLevel: Option<Level>): (unlocked: bool)
    ensures unlocked <==> clearedLevel == Some(L285) || clearedLevel == Some(L28285)
  {
    var cleared := match clearedLevel case None => 0 case Some(l) => Number(l);
    cleared >= 285
  }

  /** The `Game` component: the level being played (none on the title
      screen) and the level most recently cleared. */
  class Game {
    var level: Option<Level>
    var clearedLevel: Option<Level>

    constructor ()
      ensures level == None && clearedLevel == None
    {
      level := None;
      clearedLevel := None;
    }

    /** A level button on the title screen; the 28285 button is disabled
        while that level is locked. */
    method SelectLevel(chosen: Level)
      requires level == None
      modifies this
      ensures clearedLevel == old(clearedLevel)
      ensures level == if chosen != L28285 || IsLevel28285Unlocked(clearedLevel) then Some(chosen) else None
    {
      if chosen != L28285 || IsLevel28285Unlocked(clearedLevel) {
        level := Some(chosen);
      }
    }

    /** `onCleared`: the level just played replaces the cleared level (it is
        not a maximum), and the title screen returns. */
    method OnCleared()
      requires level.Some?
      modifies this
      ensures clearedLevel == old(level) && level == None
    {
      clearedLevel := level;
      level := None;
    }
  }

  /** Clearing level 285 opens level 28285; clearing level 1 afterwards closes
      it again, because the cleared level is overwritten. */
  method RelockScenario()
  {
    var game := new Game();
    game.SelectLevel(L28285);
    assert game.level == None;
    game.SelectLevel(L285);
    game.OnCleared();
    assert IsLevel28285Unlocked(game.clearedLevel);
    game.SelectLevel(L1);
    game.OnCleared();
    assert !IsLevel28285Unlocked(game.clearedLevel);
    game.SelectLevel(L28285);
    assert game.level == None;
  }
}
