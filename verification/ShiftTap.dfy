/**
  When a Shift key counts as tapped alone: the flags the input method keeps as keyboard
  messages and modifier updates come in, and what they mean in terms of that whole history.
 */
module ShiftTap {
  import opened InputMethod

  const MSG_SPCHAR := 7
  const MSG_KEYUP := 9
  const MSG_KEYDOWN := 10
  const MSG_KEYLONGPRESS := 16
  const KEY_SHIFT := 133

  predicate IsKeyMessage(message: nat) { message in {MSG_KEYDOWN, MSG_KEYUP, MSG_KEYLONGPRESS, MSG_CHAR, MSG_SPCHAR} }

  predicate IsShift(message: nat, value: nat) { value == KEY_SHIFT && message != MSG_CHAR }

  /** A keyboard message, an update of the modifiers (is Ctrl, Alt or Win down), or a reset. */
  datatype Stroke = Press(message: nat, value: nat) | Modify(chord: bool) | Clear

  /** The flags: Shift is down, it may still be a tap, the other held keys by code, and a chord modifier is down. */
  datatype Keys = Keys(down: bool, tap: bool, held: set<nat>, chord: bool)

  function Track(k: Keys, s: Stroke): Keys {
    match s
    case Clear => Keys(false, false, {}, k.chord)
    case Modify(chord) => k.(chord := chord, tap := k.tap && !chord)
    case Press(message, value) =>
      if IsShift(message, value) then
        if message == MSG_KEYDOWN then k.(tap := !k.down && !k.chord && k.held == {}, down := true)
        else if message == MSG_KEYUP then k.(down := false, tap := false) else k
      else
        k.(tap := k.tap && message !in {MSG_KEYDOWN, MSG_KEYUP, MSG_CHAR, MSG_SPCHAR},
           held := if value >= 256 || value == KEY_SHIFT then k.held
                   else if message == MSG_KEYDOWN then k.held + {value}
                   else if message == MSG_KEYUP then k.held - {value} else k.held)
  }

  /** The flags after a history. */
  function Tracked(h: seq<Stroke>): Keys {
    if h == [] then Keys(false, false, {}, false) else Track(Tracked(h[..|h|-1]), h[|h|-1])
  }

  lemma TrackedMore(h: seq<Stroke>, s: Stroke)
    ensures Tracked(h + [s]) == Track(Tracked(h), s)
  {
    assert (h + [s])[..|h|] == h;
  }

  // ------------------------------------------------ the same, read off the history

  /** The key went down and nothing has released it since. */
  ghost predicate Pressed(h: seq<Stroke>, key: nat) {
    exists i | 0 <= i < |h| ::
      h[i] == Press(MSG_KEYDOWN, key) && forall j | i < j < |h| :: h[j] != Clear && h[j] != Press(MSG_KEYUP, key)
  }

  /** The last modifier update reported a chord modifier. */
  ghost predicate Chorded(h: seq<Stroke>) {
    exists i | 0 <= i < |h| :: h[i] == Modify(true) && forall j | i < j < |h| :: h[j] != Modify(false)
  }

  ghost predicate Idle(h: seq<Stroke>) { !Chorded(h) && forall key | key < 256 :: !Pressed(h, key) }

  /** Key repeat, the character form of Shift itself, and modifier updates without a chord do not spoil a tap. */
  predicate Quiet(s: Stroke) {
    s == Modify(false) || (s.Press? && (s.message !in {MSG_KEYDOWN, MSG_KEYUP, MSG_CHAR, MSG_SPCHAR}
                                        || (s.value == KEY_SHIFT && s.message == MSG_SPCHAR)))
  }

  /** Shift was pressed while nothing else was down, and only quiet strokes have followed. */
  ghost predicate Solo(h: seq<Stroke>) {
    exists k | 0 <= k < |h| ::
      h[k] == Press(MSG_KEYDOWN, KEY_SHIFT) && Idle(h[..k]) && forall j | k < j < |h| :: Quiet(h[j])
  }

  lemma PressedMore(h: seq<Stroke>, s: Stroke, key: nat)
    ensures Pressed(h + [s], key) <==>
            s == Press(MSG_KEYDOWN, key) || (Pressed(h, key) && s != Clear && s != Press(MSG_KEYUP, key))
  {
    var g := h + [s];
    if s == Press(MSG_KEYDOWN, key) {
      assert g[|h|] == s;
    } else if Pressed(h, key) {
      var i :| 0 <= i < |h| && h[i] == Press(MSG_KEYDOWN, key)
               && forall j | i < j < |h| :: h[j] != Clear && h[j] != Press(MSG_KEYUP, key);
      assert g[i] == h[i] && g[|h|] == s;
    }
    if i :| 0 <= i < |h| && g[i] == Press(MSG_KEYDOWN, key)
            && forall j | i < j < |g| :: g[j] != Clear && g[j] != Press(MSG_KEYUP, key) {
      assert h[i] == g[i] && g[|h|] == s;
      assert forall j | i < j < |h| :: h[j] == g[j];
    }
  }

  lemma ChordedMore(h: seq<Stroke>, s: Stroke)
    ensures Chorded(h + [s]) <==> s == Modify(true) || (Chorded(h) && s != Modify(false))
  {
    var g := h + [s];
    if s == Modify(true) {
      assert g[|h|] == s;
    } else if Chorded(h) {
      var i :| 0 <= i < |h| && h[i] == Modify(true) && forall j | i < j < |h| :: h[j] != Modify(false);
      assert g[i] == h[i] && g[|h|] == s;
    }
    if i :| 0 <= i < |h| && g[i] == Modify(true) && forall j | i < j < |g| :: g[j] != Modify(false) {
      assert h[i] == g[i] && g[|h|] == s;
      assert forall j | i < j < |h| :: h[j] == g[j];
    }
  }

  lemma SoloMore(h: seq<Stroke>, s: Stroke)
    ensures Solo(h + [s]) <==> (s == Press(MSG_KEYDOWN, KEY_SHIFT) && Idle(h)) || (Solo(h) && Quiet(s))
  {
    hide Idle;
    hide Quiet;
    var g := h + [s];
    assert g[..|h|] == h && g[|h|] == s;
    if Solo(h) && Quiet(s) {
      var k :| 0 <= k < |h| && h[k] == Press(MSG_KEYDOWN, KEY_SHIFT) && Idle(h[..k])
               && forall j | k < j < |h| :: Quiet(h[j]);
      assert g[k] == h[k] && g[..k] == h[..k];
    }
    if k :| 0 <= k < |h| && g[k] == Press(MSG_KEYDOWN, KEY_SHIFT) && Idle(g[..k])
            && forall j | k < j < |g| :: Quiet(g[j]) {
      assert h[k] == g[k] && g[..k] == h[..k];
      assert forall j | k < j < |h| :: h[j] == g[j];
    }
  }

  ghost predicate Means(k: Keys, h: seq<Stroke>) {
    && (k.down <==> Pressed(h, KEY_SHIFT)) && (k.chord <==> Chorded(h)) && (k.tap <==> Solo(h))
    && (forall key: nat :: key in k.held <==> key < 256 && key != KEY_SHIFT && Pressed(h, key))
    && (k.tap ==> k.down && !k.chord)
  }

  lemma MeansMore(k: Keys, h: seq<Stroke>, s: Stroke)
    requires Means(k, h)
    ensures Means(Track(k, s), h + [s])
  {
    hide Pressed;
    hide Chorded;
    hide Solo;
    forall key: nat
      ensures Pressed(h + [s], key) <==>
              s == Press(MSG_KEYDOWN, key) || (Pressed(h, key) && s != Clear && s != Press(MSG_KEYUP, key))
    {
      PressedMore(h, s, key);
    }
    ChordedMore(h, s);
    SoloMore(h, s);
    assert Idle(h) <==> !k.down && !k.chord && k.held == {};
  }

  /** After every history the flags mean what they are named for; in particular the tap flag is exactly a lone Shift. */
  lemma {:induction false} TapIffSolo(h: seq<Stroke>)
    ensures Means(Tracked(h), h)
  {
    if h != [] {
      TapIffSolo(h[..|h|-1]);
      MeansMore(Tracked(h[..|h|-1]), h[..|h|-1], h[|h|-1]);
      assert h[..|h|-1] + [h[|h|-1]] == h;
    }
  }
}
