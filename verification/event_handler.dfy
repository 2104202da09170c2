/**
 The window event handler. It remembers the window's current size, and
 turns the W and S keys into level cycling: W shows the next level, S the
 previous one, both wrapping around. A key acts once per press: its flag is
 set when it acts and cleared when it is released, so the repeated "pressed"
 events of a held key do nothing.
 */
module EventHandlers {
  import opened Games

  /** The discriminants of winit's `KeyCode::KeyS` and `KeyCode::KeyW`, used to index the key flags. */
  const KEY_S: nat := 37
  const KEY_W: nat := 41

  datatype ElementState = Pressed | Released

  datatype PhysicalKey = Code(code: nat) | Unidentified

  datatype KeyEvent = KeyEvent(state: ElementState, physicalKey: PhysicalKey)

  /** The part of the game the keyboard changes: the shown level and the key flags. */
  datatype Controls = Controls(level: nat, processed: seq<bool>)

  /** Key flags that can be indexed by both keys. */
  predicate HasKeys(c: Controls) {
    KEY_W < |c.processed| && KEY_S < |c.processed|
  }

  /** The level W moves to: the next one, wrapping past the last to the first. */
  function Next(level: nat, levelCount: nat): nat
    requires levelCount > 0
  {
    (level + 1) % levelCount
  }

  /** The level S moves to: the previous one, wrapping from the first to the last. */
  function Prev(level: nat, levelCount: nat): nat
    requires levelCount > 0
  {
    if level > 0 then level - 1 else levelCount - 1
  }

  /** S undoes W and W undoes S on every level in range. */
  lemma NextPrevInverse(level: nat, levelCount: nat)
    requires level < levelCount
    ensures Next(level, levelCount) < levelCount && Prev(level, levelCount) < levelCount
    ensures Prev(Next(level, levelCount), levelCount) == level
    ensures Next(Prev(level, levelCount), levelCount) == level
  {
    if level + 1 < levelCount {
      assert Next(level, levelCount) == level + 1;
    } else {
      assert Next(level, levelCount) == 0;
    }
  }

  /** What one keyboard event does to the level and the key flags of a game with `levelCount` levels. */
  function OnKey(c: Controls, levelCount: nat, ev: KeyEvent): (r: Controls)
    requires levelCount > 0 && HasKeys(c)
    ensures |r.processed| == |c.processed| && HasKeys(r)
    ensures forall k :: 0 <= k < |c.processed| && k != KEY_W && k != KEY_S ==> r.processed[k] == c.processed[k]
    ensures c.level < levelCount ==> r.level < levelCount
    // W acts on a press whose flag is clear: next level, flag set
    ensures ev == KeyEvent(Pressed, Code(KEY_W)) && !c.processed[KEY_W] ==>
      r.level == Next(c.level, levelCount) && r.processed == c.processed[KEY_W := true]
    // S acts on a press whose flag is clear: the level W would have come from, flag set
    ensures ev == KeyEvent(Pressed, Code(KEY_S)) && !c.processed[KEY_S] ==>
      (c.level < levelCount ==> Next(r.level, levelCount) == c.level) &&
      r.processed == c.processed[KEY_S := true]
    // a press of a flagged key, or of any other key, does nothing
    ensures (&& ev.state == Pressed
             && !(ev.physicalKey == Code(KEY_W) && !c.processed[KEY_W])
             && !(ev.physicalKey == Code(KEY_S) && !c.processed[KEY_S])) ==> r == c
    // a release never changes the level; it clears the released key's flag and no other
    ensures ev.state == Released ==> r.level == c.level
    ensures ev == KeyEvent(Released, Code(KEY_W)) ==> r.processed == c.processed[KEY_W := false]
    ensures ev == KeyEvent(Released, Code(KEY_S)) ==> r.processed == c.processed[KEY_S := false]
    ensures ev.state == Released && ev.physicalKey != Code(KEY_W) && ev.physicalKey != Code(KEY_S) ==> r == c
  {
    match ev.state
    case Pressed =>
      if ev.physicalKey == Code(KEY_W) && !c.processed[KEY_W] then
        Controls(Next(c.level, levelCount), c.processed[KEY_W := true])
      else if ev.physicalKey == Code(KEY_S) && !c.processed[KEY_S] then
        var r := Controls(Prev(c.level, levelCount), c.processed[KEY_S := true]);
        assert c.level < levelCount ==> Next(r.level, levelCount) == c.level by {
          if c.level < levelCount { NextPrevInverse(c.level, levelCount); }
        }
        r
      else
        c
    case Released =>
      if ev.physicalKey == Code(KEY_W) then
        c.(processed := c.processed[KEY_W := false])
      else if ev.physicalKey == Code(KEY_S) then
        c.(processed := c.processed[KEY_S := false])
      else
        c
  }

  /** The controls after a sequence of keyboard events, in order. */
  function Run(c: Controls, levelCount: nat, events: seq<KeyEvent>): (r: Controls)
    requires levelCount > 0 && HasKeys(c)
    ensures HasKeys(r) && |r.processed| == |c.processed|
    decreases |events|
  {
    if events == [] then c else Run(OnKey(c, levelCount, events[0]), levelCount, events[1..])
  }

  const PressW := KeyEvent(Pressed, Code(KEY_W))
  const ReleaseW := KeyEvent(Released, Code(KEY_W))
  const PressS := KeyEvent(Pressed, Code(KEY_S))

  /** Whatever the events, a level index in range stays in range. */
  lemma {:induction false} RunStaysInRange(c: Controls, levelCount: nat, events: seq<KeyEvent>)
    requires levelCount > 0 && HasKeys(c) && c.level < levelCount
    ensures Run(c, levelCount, events).level < levelCount
    decreases |events|
  {
    if events != [] {
      RunStaysInRange(OnKey(c, levelCount, events[0]), levelCount, events[1..]);
    }
  }

  /** While W is held (its flag set), any number of repeated presses changes nothing. */
  lemma {:induction false} HeldPressesIgnored(c: Controls, levelCount: nat, k: nat)
    requires levelCount > 0 && HasKeys(c) && c.processed[KEY_W]
    ensures Run(c, levelCount, seq(k, _ => PressW)) == c
  {
    if k > 0 {
      var presses := seq(k, _ => PressW);
      assert presses[0] == PressW && presses[1..] == seq(k - 1, _ => PressW);
      HeldPressesIgnored(c, levelCount, k - 1);
    }
  }

  /**
   A press of W followed by any number of repeats (a held key) moves to the
   next level exactly once.
   */
  lemma HeldKeyActsOnce(c: Controls, levelCount: nat, repeats: nat)
    requires levelCount > 0 && HasKeys(c) && !c.processed[KEY_W]
    ensures Run(c, levelCount, seq(repeats + 1, _ => PressW)).level == Next(c.level, levelCount)
  {
    var presses := seq(repeats + 1, _ => PressW);
    var after := OnKey(c, levelCount, PressW);
    assert presses[0] == PressW && presses[1..] == seq(repeats, _ => PressW);
    HeldPressesIgnored(after, levelCount, repeats);
  }

  /** Pressing W and then S, each with its flag clear, comes back to the level started from. */
  lemma ForwardThenBack(c: Controls, levelCount: nat)
    requires levelCount > 0 && HasKeys(c) && c.level < levelCount
    requires !c.processed[KEY_W] && !c.processed[KEY_S]
    ensures Run(c, levelCount, [PressW, PressS]).level == c.level
  {
    var mid := OnKey(c, levelCount, PressW);
    var last := OnKey(mid, levelCount, PressS);
    assert [PressW, PressS][1..] == [PressS];
    assert Run(c, levelCount, [PressW, PressS]) == Run(mid, levelCount, [PressS]);
    assert Run(mid, levelCount, [PressS]) == last;
    NextPrevInverse(c.level, levelCount);
  }

  /** m presses and releases of W, one after the other. */
  function TapsW(m: nat): seq<KeyEvent> {
    if m == 0 then [] else [PressW, ReleaseW] + TapsW(m - 1)
  }

  /** The remainder is determined by any decomposition y == k * n + r with 0 <= r < n. */
  lemma ModUnique(y: int, k: int, r: int, n: int)
    requires n > 0 && 0 <= r < n && y == k * n + r
    ensures y % n == r
  {
    var k', r' := y / n, y % n;
    assert y == k' * n + r';
    if k' != k {
      MulAtLeast(if k' < k then k - k' else k' - k, n);
    }
  }

  lemma MulAtLeast(d: int, n: int)
    requires d >= 1 && n > 0
    ensures d * n >= n
  {
    assert d * n == (d - 1) * n + n;
    assert (d - 1) * n >= 0;
  }

  /** Adding n does not change the remainder modulo n. */
  lemma ModAddCount(b: nat, n: nat)
    requires n > 0
    ensures (n + b) % n == b % n
  {
    var q, r := b / n, b % n;
    assert b == q * n + r;
    assert n + b == (q + 1) * n + r;
    ModUnique(n + b, q + 1, r, n);
  }

  /** One step forward from a level in range, then b more, is b + 1 steps forward. */
  lemma ModSuccessor(a: nat, b: nat, n: nat)
    requires a < n
    ensures ((a + 1) % n + b) % n == (a + 1 + b) % n
  {
    if a + 1 < n {
      ModUnique(a + 1, 0, a + 1, n);
    } else {
      ModUnique(a + 1, 1, 0, n);
      ModAddCount(b, n);
    }
  }

  /**
   Tapping W m times advances the level by m, wrapping around; tapping it as
   many times as there are levels comes back to the start.
   */
  lemma {:induction false} TapsAdvance(c: Controls, levelCount: nat, m: nat)
    requires levelCount > 0 && HasKeys(c) && c.level < levelCount && !c.processed[KEY_W]
    ensures Run(c, levelCount, TapsW(m)).level == (c.level + m) % levelCount
    ensures !Run(c, levelCount, TapsW(m)).processed[KEY_W]
    decreases m
  {
    if m > 0 {
      var released := OnKey(OnKey(c, levelCount, PressW), levelCount, ReleaseW);
      assert released.level == Next(c.level, levelCount) && !released.processed[KEY_W];
      RunTap(c, levelCount, TapsW(m - 1));
      TapsAdvance(released, levelCount, m - 1);
      ModSuccessor(c.level, m - 1, levelCount);
    }
  }

  /** Running a press and release of W, then more events, runs the rest from where the tap left off. */
  lemma RunTap(c: Controls, levelCount: nat, rest: seq<KeyEvent>)
    requires levelCount > 0 && HasKeys(c)
    ensures Run(c, levelCount, [PressW, ReleaseW] + rest)
         == Run(OnKey(OnKey(c, levelCount, PressW), levelCount, ReleaseW), levelCount, rest)
  {
    var events := [PressW, ReleaseW] + rest;
    assert events[0] == PressW && events[1..] == [ReleaseW] + rest;
    assert ([ReleaseW] + rest)[0] == ReleaseW && ([ReleaseW] + rest)[1..] == rest;
  }

  /** Tapping W once per level shows the level started from again. */
  lemma FullCycle(c: Controls, levelCount: nat)
    requires levelCount > 0 && HasKeys(c) && c.level < levelCount && !c.processed[KEY_W]
    ensures Run(c, levelCount, TapsW(levelCount)).level == c.level
  {
    TapsAdvance(c, levelCount, levelCount);
    ModAddCount(c.level, levelCount);
    ModUnique(c.level, 0, c.level, levelCount);
  }

  class EventHandler {
    var currentWidth: nat
    var currentHeight: nat

    constructor (width: nat, height: nat)
      ensures currentWidth == width && currentHeight == height
    {
      currentWidth := width;
      currentHeight := height;
    }

    /**
     One keyboard event. A press of W or S whose flag is clear changes the
     level, sets that key's flag and asks for a redraw; a release clears the
     released key's flag. Everything else leaves the game as it is. The
     handler itself does not change.
     */
    method HandleKeyboardInput(keyEvent: KeyEvent, game: Game) returns (redraw: bool)
      requires |game.levels| > 0
      requires KEY_W < game.keysProcessed.Length && KEY_S < game.keysProcessed.Length
      modifies game, game.keysProcessed
      ensures game.levels == old(game.levels) && game.state == old(game.state)
      ensures game.keysProcessed == old(game.keysProcessed)
      ensures Controls(game.currentLevel, game.keysProcessed[..])
           == OnKey(Controls(old(game.currentLevel), old(game.keysProcessed[..])), |game.levels|, keyEvent)
      ensures redraw <==> (keyEvent.state == Pressed &&
        ((keyEvent.physicalKey == Code(KEY_W) && !old(game.keysProcessed[KEY_W])) ||
         (keyEvent.physicalKey == Code(KEY_S) && !old(game.keysProcessed[KEY_S]))))
      ensures old(game.currentLevel) < |game.levels| ==> game.currentLevel < |game.levels|
    {
      redraw := false;
      if keyEvent.state == Pressed {
        if keyEvent.physicalKey == Code(KEY_W) && !game.keysProcessed[KEY_W] {
          game.currentLevel := (game.currentLevel + 1) % |game.levels|;
          game.keysProcessed[KEY_W] := true;
          redraw := true;
        } else if keyEvent.physicalKey == Code(KEY_S) && !game.keysProcessed[KEY_S] {
          if game.currentLevel > 0 {
            game.currentLevel := game.currentLevel - 1;
          } else {
            game.currentLevel := |game.levels| - 1;
          }
          game.keysProcessed[KEY_S] := true;
          redraw := true;
        }
      } else if keyEvent.state == Released {
        if keyEvent.physicalKey == Code(KEY_W) {
          game.keysProcessed[KEY_W] := false;
        } else if keyEvent.physicalKey == Code(KEY_S) {
          game.keysProcessed[KEY_S] := false;
        }
      }
    }

    /** Records the window's new physical size. */
    method HandleResize(width: nat, height: nat)
      modifies this
      ensures currentWidth == width && currentHeight == height
    {
      currentWidth := width;
      currentHeight := height;
    }
  }
}
