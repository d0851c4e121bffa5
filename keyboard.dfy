/** The keyboard controller: the modifier state that the key-down and key-up
    handlers maintain, and the key-up dispatch to the registered shortcuts. */
module Keyboard {
  import opened Base
  import opened Shortcuts

  /** The key-down switch: Shift, Control and Alt set their flag, every
      other key leaves the state as it is. */
  function Press(st: KeyboardState, key: string): (r: KeyboardState)
    ensures r.shift == (st.shift || key == "Shift")
    ensures r.ctrl == (st.ctrl || key == "Control")
    ensures r.alt == (st.alt || key == "Alt")
  {
    if key == "Shift" then st.(shift := true)
    else if key == "Control" then st.(ctrl := true)
    else if key == "Alt" then st.(alt := true)
    else st
  }

  /** The key-up switch: Shift, Control and Alt clear their flag, every
      other key leaves the state as it is. */
  function Release(st: KeyboardState, key: string): (r: KeyboardState)
    ensures r.shift == (st.shift && key != "Shift")
    ensures r.ctrl == (st.ctrl && key != "Control")
    ensures r.alt == (st.alt && key != "Alt")
  {
    if key == "Shift" then st.(shift := false)
    else if key == "Control" then st.(ctrl := false)
    else if key == "Alt" then st.(alt := false)
    else st
  }

  predicate IsModifierKey(key: string) {
    key == "Shift" || key == "Control" || key == "Alt"
  }

  /** A key that is not a modifier changes nothing on either edge. */
  lemma OtherKeysKeepState(st: KeyboardState, key: string)
    requires !IsModifierKey(key)
    ensures Press(st, key) == st && Release(st, key) == st
  {
  }

  /** Pressing a modifier twice is pressing it once. */
  lemma PressIdempotent(st: KeyboardState, key: string)
    ensures Press(Press(st, key), key) == Press(st, key)
  {
  }

  /** Releasing a modifier that was up before the press restores the state. */
  lemma ReleaseUndoesPress(st: KeyboardState, key: string)
    requires key == "Shift" ==> !st.shift
    requires key == "Control" ==> !st.ctrl
    requires key == "Alt" ==> !st.alt
    ensures Release(Press(st, key), key) == st
  {
  }

  /** The callbacks `shortcut.call(key, state)` runs for each shortcut of
      `scs` in turn, in registration order. */
  function Dispatch(scs: seq<Shortcut>, key: string, st: KeyboardState): (r: seq<Action>)
    ensures |r| <= |scs|
  {
    if scs == [] then []
    else
      var sc := scs[|scs| - 1];
      Dispatch(scs[..|scs| - 1], key, st) + (if Fires(sc, key, st) then [sc.fn] else [])
  }

  /** Dispatching over two lists in a row is dispatching over their
      concatenation: the callbacks keep registration order. */
  lemma {:induction false} DispatchAppend(a: seq<Shortcut>, b: seq<Shortcut>, key: string, st: KeyboardState)
    ensures Dispatch(a + b, key, st) == Dispatch(a, key, st) + Dispatch(b, key, st)
    decreases |b|
  {
    if b == [] {
      assert a + b == a;
    } else {
      var b' := b[..|b| - 1];
      assert (a + b)[..|a + b| - 1] == a + b';
      assert (a + b)[|a + b| - 1] == b[|b| - 1];
      DispatchAppend(a, b', key, st);
    }
  }

  /** An action is run iff some registered shortcut with that action fires
      on the key and the state. */
  lemma {:induction false} DispatchIff(scs: seq<Shortcut>, key: string, st: KeyboardState, a: Action)
    ensures a in Dispatch(scs, key, st) <==> exists i :: 0 <= i < |scs| && scs[i].fn == a && Fires(scs[i], key, st)
  {
    if scs != [] {
      var p := scs[..|scs| - 1];
      DispatchIff(p, key, st, a);
      if a in Dispatch(scs, key, st) && a !in Dispatch(p, key, st) {
        assert scs[|scs| - 1].fn == a && Fires(scs[|scs| - 1], key, st);
      }
      if exists i :: 0 <= i < |scs| && scs[i].fn == a && Fires(scs[i], key, st) {
        var i :| 0 <= i < |scs| && scs[i].fn == a && Fires(scs[i], key, st);
        if i < |p| {
          assert p[i] == scs[i];
        }
      }
    }
  }

  /** With the stored modifiers held and the key typed, every shortcut for
      that text fires: the number of callbacks run is the number of those
      shortcuts. */
  lemma {:induction false} DispatchCount(scs: seq<Shortcut>, key: string, st: KeyboardState)
    requires forall i :: 0 <= i < |scs| ==> Fires(scs[i], key, st)
    ensures Dispatch(scs, key, st) == seq(|scs|, i requires 0 <= i < |scs| => scs[i].fn)
  {
    if scs != [] {
      DispatchCount(scs[..|scs| - 1], key, st);
    }
  }

  /** Holding Control and releasing C runs a "Ctrl C" shortcut once. */
  lemma CtrlCFires(fn: Action)
    ensures var sc := Shortcut(fn, "c", KeyboardState(false, true, false));
      Dispatch([sc], "C", Release(Press(NoModifiers, "Control"), "C")) == [fn]
  {
    var sc := Shortcut(fn, "c", KeyboardState(false, true, false));
    assert Lower("C") == "c";
    assert Fires(sc, "C", KeyboardState(false, true, false));
    assert [sc][..0] == [];
  }

  /** The state is updated before dispatch, so the key-up of Control itself
      never fires a shortcut that needs Control. */
  lemma ReleaseBeforeDispatch(scs: seq<Shortcut>, st: KeyboardState, a: Action)
    requires forall i :: 0 <= i < |scs| ==> scs[i].options.ctrl
    ensures a !in Dispatch(scs, "Control", Release(st, "Control"))
  {
    DispatchIff(scs, "Control", Release(st, "Control"), a);
  }

  /** `KeyboardController`: the registered shortcuts, the modifier state and,
      standing for the effect of the callbacks, the log of actions run. */
  class KeyboardController {
    var shortcuts: seq<Shortcut>
    var keyboardState: KeyboardState
    var fired: seq<Action>

    /** No shortcut, no modifier held. */
    constructor()
      ensures shortcuts == [] && keyboardState == NoModifiers && fired == []
    {
      shortcuts := [];
      keyboardState := NoModifiers;
      fired := [];
    }

    /** The key-down handler: updates the modifiers and runs no callback. */
    method KeyDown(key: string)
      modifies this`keyboardState
      ensures keyboardState == Press(old(keyboardState), key)
      ensures fired == old(fired) && shortcuts == old(shortcuts)
    {
      if key == "Shift" {
        keyboardState := keyboardState.(shift := true);
      } else if key == "Control" {
        keyboardState := keyboardState.(ctrl := true);
      } else if key == "Alt" {
        keyboardState := keyboardState.(alt := true);
      }
    }

    /** The key-up handler: updates the modifiers, then offers the key to
        every shortcut in registration order under the new state. */
    method KeyUp(key: string)
      modifies this`keyboardState, this`fired
      ensures keyboardState == Release(old(keyboardState), key)
      ensures fired == old(fired) + Dispatch(shortcuts, key, keyboardState)
      ensures shortcuts == old(shortcuts)
    {
      if key == "Shift" {
        keyboardState := keyboardState.(shift := false);
      } else if key == "Control" {
        keyboardState := keyboardState.(ctrl := false);
      } else if key == "Alt" {
        keyboardState := keyboardState.(alt := false);
      }
      var i := 0;
      while i < |shortcuts|
        invariant 0 <= i <= |shortcuts|
        invariant keyboardState == Release(old(keyboardState), key)
        invariant fired == old(fired) + Dispatch(shortcuts[..i], key, keyboardState)
      {
        var shortcut := shortcuts[i];
        PrefixSnoc(shortcuts, i);
        if Fires(shortcut, key, keyboardState) {
          fired := fired + [shortcut.fn];
        }
        i := i + 1;
      }
      assert shortcuts[..i] == shortcuts;
    }

    /** `addShortcut`: appended after the earlier ones. */
    method AddShortcut(shortcut: Shortcut)
      modifies this`shortcuts
      ensures shortcuts == old(shortcuts) + [shortcut]
      ensures keyboardState == old(keyboardState) && fired == old(fired)
    {
      shortcuts := shortcuts + [shortcut];
    }
  }
}
