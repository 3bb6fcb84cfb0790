/** The puzzle controller: the session state the page keeps in module-level variables
    (the board, the current level, the tile held by a drag or by a touch) and the event
    handlers that change it. The screen, the modal and the CSS classes are not modelled;
    what they show is summarised by the phase. */
module Controller {

  import opened Board
  import Levels

  /** Playing: the puzzle is interactive and the continue control is hidden.
      Solved: a win was detected since the level was built; the continue control is shown.
      Reward: the board was replaced by the final image; nothing leads out of it. */
  datatype Phase = Playing | Solved | Reward

  /** The part of the session that the continue action and the win check move along. */
  datatype Progress = Progress(level: nat, phase: Phase)

  /** The continue action. On a solved level below the last one it moves to the next level;
      on the solved last level it moves to the reward screen; otherwise (the control is
      hidden) nothing happens. */
  function ContinueStep(p: Progress, levelCount: nat): (q: Progress)
    requires p.level < levelCount
    ensures q.level < levelCount
    ensures q.level == p.level || q.level == p.level + 1
    ensures q.level == p.level + 1 <==> p.phase == Solved && p.level < levelCount - 1
    ensures q.phase == Reward <==> p.phase == Reward || (p.phase == Solved && p.level == levelCount - 1)
    ensures q.phase == Playing <==> p.phase == Playing || (p.phase == Solved && p.level < levelCount - 1)
  {
    if p.phase != Solved then p
    else if p.level < levelCount - 1 then Progress(p.level + 1, Playing)
    else Progress(p.level, Reward)
  }

  /** What moves the session along between boards: a placement that wins, or the continue control. */
  datatype Event = Won | Continued

  /** The progress after one event. A win is only detected while a board is on screen. */
  function Step(p: Progress, e: Event, levelCount: nat): (q: Progress)
    requires p.level < levelCount
  {
    match e
    case Won => if p.phase == Reward then p else Progress(p.level, Solved)
    case Continued => ContinueStep(p, levelCount)
  }

  /** The progress after a session's events, in order. */
  function Run(p: Progress, events: seq<Event>, levelCount: nat): (q: Progress)
    requires p.level < levelCount
    decreases |events|
  {
    if events == [] then p else Run(Step(p, events[0], levelCount), events[1..], levelCount)
  }

  /** Over any sequence of wins and continue actions the level never decreases, rises by at
      most one per event, stays in bounds, and the reward screen is never left. */
  lemma {:induction false} RunMonotone(p: Progress, events: seq<Event>, levelCount: nat)
    requires p.level < levelCount
    decreases |events|
    ensures p.level <= Run(p, events, levelCount).level <= p.level + |events|
    ensures Run(p, events, levelCount).level < levelCount
    ensures p.phase == Reward ==> Run(p, events, levelCount) == p
  {
    if events != [] {
      RunMonotone(Step(p, events[0], levelCount), events[1..], levelCount);
    }
  }

  /** After `j` rounds of a win followed by a continue, starting from a level being played,
      the player is `j` levels further on and playing again, as long as that level exists. */
  lemma {:induction false} RoundsAdvance(level: nat, levelCount: nat, j: nat)
    requires level + j < levelCount
    decreases j
    ensures Run(Progress(level, Playing), Rounds(j), levelCount) == Progress(level + j, Playing)
  {
    if j > 0 {
      var p := Progress(level, Playing);
      assert Rounds(j)[0] == Won;
      assert Rounds(j)[1..][0] == Continued;
      assert Rounds(j)[1..][1..] == Rounds(j - 1);
      assert Step(Step(p, Won, levelCount), Continued, levelCount) == Progress(level + 1, Playing);
      RoundsAdvance(level + 1, levelCount, j - 1);
    }
  }

  /** Every level is reached: from any level being played, a win followed by a continue,
      repeated, leads through each later level in turn and ends on the reward screen at
      the last level. */
  lemma {:induction false} WinAndContinueReachesReward(level: nat, levelCount: nat, rounds: nat)
    requires level < levelCount && rounds == levelCount - level
    decreases rounds
    ensures forall j | 0 <= j < rounds :: Run(Progress(level, Playing), Rounds(j), levelCount) == Progress(level + j, Playing)
    ensures Run(Progress(level, Playing), Rounds(rounds), levelCount) == Progress(levelCount - 1, Reward)
  {
    forall j | 0 <= j < rounds
      ensures Run(Progress(level, Playing), Rounds(j), levelCount) == Progress(level + j, Playing)
    {
      RoundsAdvance(level, levelCount, j);
    }
    var p := Progress(level, Playing);
    var first := Step(Step(p, Won, levelCount), Continued, levelCount);
    assert Run(p, Rounds(rounds), levelCount) == Run(first, Rounds(rounds - 1), levelCount) by {
      assert Rounds(rounds)[0] == Won;
      assert Rounds(rounds)[1..][0] == Continued;
      assert Rounds(rounds)[1..][1..] == Rounds(rounds - 1);
    }
    if level < levelCount - 1 {
      WinAndContinueReachesReward(level + 1, levelCount, rounds - 1);
    } else {
      assert Rounds(rounds - 1) == [];
    }
  }

  /** `rounds` repetitions of a win followed by a continue. */
  function Rounds(rounds: nat): (r: seq<Event>)
    ensures |r| == 2 * rounds
  {
    if rounds == 0 then [] else [Won, Continued] + Rounds(rounds - 1)
  }

  class Puzzle {
    /** The level images, fixed at start-up. */
    const levels: seq<string>
    /** Zone index -> tile index (its correctIndex), EMPTY for an empty zone. */
    var board: array<int>
    var currentLevel: nat
    var phase: Phase
    /** The tile picked up by a mouse drag, EMPTY when none. */
    var dragged: int
    /** The tile picked up by a touch, EMPTY when none. */
    var touchHeld: int

    /** The session invariant apart from the board's contents. */
    ghost predicate Session()
      reads this
    {
      && |levels| > 0
      && currentLevel < |levels|
      && (dragged == EMPTY || IsTile(dragged))
      && (touchHeld == EMPTY || IsTile(touchHeld))
    }

    ghost predicate Valid()
      reads this, board
    {
      && Session()
      && board.Length == ZONE_COUNT
      && IsShuffle(board[..])
      && Full(board[..])
    }

    /** Start-up: the level list from the discovered assets, level 0, and its board built
        from the shuffle `perm`. */
    constructor (assets: seq<Levels.Asset>, fallback: Levels.Option<string>, perm: seq<int>)
      requires IsShuffle(perm)
      ensures Valid() && fresh(board)
      ensures levels == Levels.LevelImages(assets, fallback)
      ensures currentLevel == 0 && phase == Playing
      ensures board[..] == perm
      ensures dragged == EMPTY && touchHeld == EMPTY
    {
      levels := Levels.LevelImages(assets, fallback);
      currentLevel := 0;
      phase := Playing;
      dragged, touchHeld := EMPTY, EMPTY;
      board := new int[ZONE_COUNT];
      new;
      Init(perm);
    }

    /** Builds the current level's board: zone i receives the i-th tile of the shuffle. */
    method Init(perm: seq<int>)
      requires Session() && board.Length == ZONE_COUNT
      requires IsShuffle(perm)
      modifies board, this`phase
      ensures Valid()
      ensures board[..] == perm && phase == Playing
    {
      ShuffleIsFull(perm);
      for i := 0 to ZONE_COUNT
        invariant board[..i] == perm[..i]
      {
        board[i] := perm[i];
      }
      assert board[..] == board[..ZONE_COUNT] == perm;
      phase := Playing;
    }

    /** The win check: counts the zones holding their own tile. */
    method CheckWin() returns (correct: nat, won: bool)
      requires Valid()
      ensures correct == CorrectCount(board[..], ZONE_COUNT) && correct <= ZONE_COUNT
      ensures won <==> IsSolved(board[..])
    {
      correct := 0;
      for z := 0 to ZONE_COUNT
        invariant correct == CorrectCount(board[..], z)
      {
        if board[z] != EMPTY && board[z] == z {
          correct := correct + 1;
        }
      }
      won := correct == ZONE_COUNT;
      CorrectCountFull(board[..], ZONE_COUNT);
    }

    /** Moves `tile` onto `zone` (swap or relocate) and runs the win check. */
    method Place(tile: int, zone: int)
      requires Valid() && phase != Reward
      modifies board, this`phase
      ensures Valid()
      ensures board[..] == Placement(old(board[..]), tile, zone)
      ensures IsTile(tile) && IsZone(zone) && IsSolved(board[..]) ==> phase == Solved
      ensures !(IsTile(tile) && IsZone(zone) && IsSolved(board[..])) ==> phase == old(phase)
    {
      if !IsTile(tile) || !IsZone(zone) {
        return;
      }
      ghost var before := board[..];
      var origin := ZoneOf(board[..], tile);
      var existing := board[zone];
      // The target's occupant (a tile, or EMPTY) goes to the origin, then the tile takes the target.
      board[origin] := existing;
      board[zone] := tile;
      assert board[..] == Placement(before, tile, zone);
      PlacementKeepsShuffle(before, tile, zone);
      var _, won := CheckWin();
      if won {
        phase := Solved;
      }
    }

    method DragStart(tile: int)
      requires Valid() && IsTile(tile)
      modifies this`dragged
      ensures Valid() && dragged == tile
    {
      dragged := tile;
    }

    method DragEnd()
      requires Valid()
      modifies this`dragged
      ensures Valid() && dragged == EMPTY
    {
      dragged := EMPTY;
    }

    /** A drop on `zone` (EMPTY when no drop zone encloses the target). Once the reward
        screen replaced the board no drop zone exists. */
    method Drop(zone: int)
      requires Valid()
      modifies board, this`phase
      ensures Valid()
      ensures var placing := old(phase) != Reward && dragged != EMPTY && IsZone(zone);
        && (placing ==> board[..] == Placement(old(board[..]), dragged, zone)
                        && phase == if IsSolved(board[..]) then Solved else old(phase))
        && (!placing ==> board[..] == old(board[..]) && phase == old(phase))
    {
      if phase != Reward && IsZone(zone) && dragged != EMPTY {
        Place(dragged, zone);
      }
    }

    /** A touch starting on `tile` with `touches` fingers down; only a single finger picks it up. */
    method TouchStart(tile: int, touches: nat)
      requires Valid() && IsTile(tile)
      modifies this`touchHeld
      ensures Valid()
      ensures touchHeld == if touches == 1 then tile else old(touchHeld)
    {
      if touches != 1 {
        return;
      }
      touchHeld := tile;
    }

    /** Release of a touch over `zone` (EMPTY when no drop zone is under the finger). */
    method TouchEnd(zone: int)
      requires Valid()
      modifies board, this`phase, this`touchHeld
      ensures Valid() && touchHeld == EMPTY
      ensures var placing := old(phase) != Reward && old(touchHeld) != EMPTY && IsZone(zone);
        && (placing ==> board[..] == Placement(old(board[..]), old(touchHeld), zone)
                        && phase == if IsSolved(board[..]) then Solved else old(phase))
        && (!placing ==> board[..] == old(board[..]) && phase == old(phase))
    {
      if touchHeld == EMPTY {
        return;
      }
      if phase != Reward && IsZone(zone) {
        Place(touchHeld, zone);
      }
      touchHeld := EMPTY;
    }

    method TouchCancel()
      requires Valid()
      modifies this`touchHeld
      ensures Valid() && touchHeld == EMPTY
    {
      if touchHeld == EMPTY {
        return;
      }
      touchHeld := EMPTY;
    }

    /** The continue control; `perm` is the shuffle for the next level's board. */
    method Continue(perm: seq<int>)
      requires Valid() && IsShuffle(perm)
      modifies board, this`phase, this`currentLevel
      ensures Valid()
      ensures Progress(currentLevel, phase) == ContinueStep(old(Progress(currentLevel, phase)), |levels|)
      ensures board[..] == if currentLevel != old(currentLevel) then perm else old(board[..])
    {
      if phase != Solved {
        return;
      }
      if currentLevel < |levels| - 1 {
        currentLevel := currentLevel + 1;
        Init(perm);
      } else {
        phase := Reward;
      }
    }
  }
}
