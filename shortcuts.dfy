/** Keyboard shortcuts: the parser that turns a description such as
    "Ctrl C" into a key and a modifier state, and the matching rule a
    shortcut applies to a key event. */
module Shortcuts {
  import opened Base

  /** Which modifier keys are held. */
  datatype KeyboardState = KeyboardState(shift: bool, ctrl: bool, alt: bool)

  const NoModifiers := KeyboardState(false, false, false)

  predicate IsUpper(c: char) {
    'A' <= c <= 'Z'
  }

  predicate NoUpper(t: string) {
    forall i :: 0 <= i < |t| ==> !IsUpper(t[i])
  }

  /** `toLowerCase` on one character (ASCII letters only). */
  function LowerChar(c: char): (r: char)
    ensures !IsUpper(r)
    ensures !IsUpper(c) ==> r == c
  {
    if IsUpper(c) then (c as int + 32) as char else c
  }

  /** `String.prototype.toLowerCase` (ASCII letters only). */
  function Lower(s: string): (r: string)
    ensures |r| == |s| && forall i :: 0 <= i < |s| ==> r[i] == LowerChar(s[i])
  {
    if s == [] then [] else [LowerChar(s[0])] + Lower(s[1..])
  }

  /** Lowering twice lowers once. */
  lemma LowerIdempotent(s: string)
    ensures Lower(Lower(s)) == Lower(s)
  {
  }

  /** A lowered string holds no upper-case letter. */
  lemma LowerNoUpper(s: string)
    ensures NoUpper(Lower(s))
  {
  }

  /** `s.split(' ')`: the pieces between single spaces, empty pieces
      included, so a string with `k` spaces has `k + 1` pieces. */
  function Split(s: string): (r: seq<string>)
    ensures |r| >= 1
    ensures forall t :: t in r ==> ' ' !in t
    decreases |s|
  {
    var i := IndexOf(s, ' ');
    if i == -1 then [s] else [s[..i]] + Split(s[i + 1..])
  }

  /** The pieces joined back with single spaces. */
  function Join(ts: seq<string>): string
    requires |ts| >= 1
  {
    if |ts| == 1 then ts[0] else ts[0] + " " + Join(ts[1..])
  }

  /** Splitting loses nothing: the pieces join back to the input. */
  lemma {:induction false} JoinSplit(s: string)
    ensures Join(Split(s)) == s
    decreases |s|
  {
    var i := IndexOf(s, ' ');
    if i != -1 {
      var ts := Split(s);
      assert ts == [s[..i]] + Split(s[i + 1..]);
      assert ts[1..] == Split(s[i + 1..]);
      JoinSplit(s[i + 1..]);
      assert Join(ts) == s[..i] + " " + s[i + 1..];
      assert s == s[..i] + " " + s[i + 1..];
    }
  }

  predicate IsModifier(k: string) {
    k == "shift" || k == "ctrl" || k == "alt"
  }

  /** One iteration of the token loop of `parseKeyboardShortcut`: a modifier
      word sets its flag, any other token becomes the key. */
  function Step(acc: (KeyboardState, string), k: string): (KeyboardState, string)
  {
    if k == "shift" then (acc.0.(shift := true), acc.1)
    else if k == "ctrl" then (acc.0.(ctrl := true), acc.1)
    else if k == "alt" then (acc.0.(alt := true), acc.1)
    else (acc.0, k)
  }

  /** The flags and the key after the first `n` tokens. */
  function Scan(ks: seq<string>, n: nat): (KeyboardState, string)
    requires n <= |ks|
  {
    if n == 0 then (NoModifiers, "") else Step(Scan(ks, n - 1), ks[n - 1])
  }

  /** `parseKeyboardShortcut(shortcut)`: `None` stands for the `false`
      result. */
  function Parse(s: string): Option<(string, KeyboardState)>
  {
    var ks := Split(Lower(s));
    var acc := Scan(ks, |ks|);
    if |acc.1| < 1 then None else Some((acc.1, acc.0))
  }

  /** Each flag is set iff its word occurs among the first `n` tokens. */
  lemma {:induction false} ScanFlags(ks: seq<string>, n: nat)
    requires n <= |ks|
    ensures Scan(ks, n).0.shift <==> "shift" in ks[..n]
    ensures Scan(ks, n).0.ctrl <==> "ctrl" in ks[..n]
    ensures Scan(ks, n).0.alt <==> "alt" in ks[..n]
  {
    if n > 0 {
      ScanFlags(ks, n - 1);
      PrefixSnoc(ks, n - 1);
    }
  }

  /** The key is the last of the first `n` tokens that is not a modifier
      word, or empty when there is none. */
  lemma {:induction false} ScanKey(ks: seq<string>, n: nat)
    requires n <= |ks|
    ensures (forall j :: 0 <= j < n ==> IsModifier(ks[j])) ==> Scan(ks, n).1 == ""
    ensures forall j :: 0 <= j < n && !IsModifier(ks[j]) && (forall m :: j < m < n ==> IsModifier(ks[m])) ==>
      Scan(ks, n).1 == ks[j]
  {
    if n > 0 {
      ScanKey(ks, n - 1);
      var prev := Scan(ks, n - 1);
      assert Scan(ks, n) == Step(prev, ks[n - 1]);
      if IsModifier(ks[n - 1]) {
        assert Scan(ks, n).1 == prev.1;
        forall j | 0 <= j < n && !IsModifier(ks[j]) && (forall m :: j < m < n ==> IsModifier(ks[m]))
          ensures Scan(ks, n).1 == ks[j]
        {
          assert j < n - 1;
        }
      } else {
        assert Scan(ks, n).1 == ks[n - 1];
        forall j | 0 <= j < n && !IsModifier(ks[j]) && (forall m :: j < m < n ==> IsModifier(ks[m]))
          ensures Scan(ks, n).1 == ks[j]
        {
          assert j == n - 1;
        }
      }
    }
  }

  /** The last token that is not a modifier word, if any. */
  function LastKey(ks: seq<string>): Option<string>
  {
    if ks == [] then None
    else if !IsModifier(ks[|ks| - 1]) then Some(ks[|ks| - 1])
    else LastKey(ks[..|ks| - 1])
  }

  /** `LastKey` is what the loop leaves in `key`. */
  lemma {:induction false} ScanLastKey(ks: seq<string>, n: nat)
    requires n <= |ks|
    ensures Scan(ks, n).1 == match LastKey(ks[..n]) case None => "" case Some(k) => k
  {
    if n > 0 {
      ScanLastKey(ks, n - 1);
      assert ks[..n][..n - 1] == ks[..n - 1];
    }
  }

  /** The parser's result, stated without the loop: the flags say which
      modifier words occur, the key is the last other token, and the result
      is `false` exactly when that token is absent or empty. */
  lemma ParseSpec(s: string)
    ensures var ks := Split(Lower(s));
      match LastKey(ks)
      case None => Parse(s) == None
      case Some(k) => Parse(s) == (if k == "" then None
                                   else Some((k, KeyboardState("shift" in ks, "ctrl" in ks, "alt" in ks))))
  {
    var ks := Split(Lower(s));
    ScanFlags(ks, |ks|);
    ScanLastKey(ks, |ks|);
    assert ks[..|ks|] == ks;
  }

  /** Only modifier words: no shortcut. */
  lemma ParseOnlyModifiers(s: string)
    requires forall t :: t in Split(Lower(s)) ==> IsModifier(t)
    ensures Parse(s) == None
  {
    var ks := Split(Lower(s));
    ScanKey(ks, |ks|);
  }

  /** The input is lowered first, so case does not matter. */
  lemma ParseLower(s: string)
    ensures Parse(Lower(s)) == Parse(s)
  {
    LowerIdempotent(s);
  }

  /** A parsed key is one non-empty token: no space, no upper-case letter,
      and never a modifier word. */
  lemma ParseKeyClean(s: string)
    requires Parse(s).Some?
    ensures var k := Parse(s).value.0;
      |k| >= 1 && ' ' !in k && !IsModifier(k) && forall i :: 0 <= i < |k| ==> !IsUpper(k[i])
  {
    var ks := Split(Lower(s));
    ParseSpec(s);
    var k := Parse(s).value.0;
    LastKeyIn(ks);
    assert k in ks;
    SplitNoUpper(Lower(s));
  }

  /** `LastKey` picks a token that is not a modifier. */
  lemma {:induction false} LastKeyIn(ks: seq<string>)
    ensures LastKey(ks).Some? ==> LastKey(ks).value in ks && !IsModifier(LastKey(ks).value)
  {
    if ks != [] && IsModifier(ks[|ks| - 1]) {
      LastKeyIn(ks[..|ks| - 1]);
    }
  }

  /** The pieces of a string without upper-case letters have none either. */
  lemma {:induction false} SplitNoUpper(s: string)
    requires NoUpper(s)
    ensures forall t :: t in Split(s) ==> NoUpper(t)
    decreases |s|
  {
    var i := IndexOf(s, ' ');
    if i != -1 {
      var head, rest := s[..i], s[i + 1..];
      assert Split(s) == [head] + Split(rest);
      NoUpperSlice(s, 0, i);
      NoUpperSlice(s, i + 1, |s|);
      SplitNoUpper(rest);
    } else {
      assert Split(s) == [s];
    }
  }

  lemma NoUpperSlice(s: string, a: nat, b: nat)
    requires NoUpper(s) && a <= b <= |s|
    ensures NoUpper(s[a..b])
  {
    forall j | 0 <= j < b - a ensures !IsUpper(s[a..b][j]) {
      assert s[a..b][j] == s[a + j];
    }
  }

  /** `parseKeyboardShortcut(shortcut)`: lower the text, split it on single
      spaces and run the token loop. */
  method ParseKeyboardShortcut(shortcut: string) returns (r: Option<(string, KeyboardState)>)
    ensures r == Parse(shortcut)
  {
    var keys := Split(Lower(shortcut));
    var keyboardState := NoModifiers;
    var key := "";
    var i := 0;
    while i < |keys|
      invariant 0 <= i <= |keys| && (keyboardState, key) == Scan(keys, i)
    {
      var k := keys[i];
      if k == "shift" {
        keyboardState := keyboardState.(shift := true);
      } else if k == "ctrl" {
        keyboardState := keyboardState.(ctrl := true);
      } else if k == "alt" {
        keyboardState := keyboardState.(alt := true);
      } else {
        key := k;
      }
      i := i + 1;
    }
    if |key| < 1 {
      return None;
    }
    return Some((key, keyboardState));
  }

  /** The first piece ends at the first space. */
  lemma SplitAt(s: string, i: nat)
    requires i < |s| && s[i] == ' ' && ' ' !in s[..i]
    ensures Split(s) == [s[..i]] + Split(s[i + 1..])
  {
    assert IndexOf(s, ' ') == i;
  }

  /** A string without a space is one piece. */
  lemma SplitNone(s: string)
    requires ' ' !in s
    ensures Split(s) == [s]
  {
  }

  /** "Ctrl K" for a one-letter key `K`. */
  lemma CtrlLetter(t: string, k: char)
    requires t == ['C', 't', 'r', 'l', ' ', k] && 'A' <= k <= 'Z'
    ensures Parse(t) == Some(([LowerChar(k)], KeyboardState(false, true, false)))
  {
    var c := LowerChar(k);
    LowerCtrl(k);
    SplitCtrl(c);
    var ks := ["ctrl", [c]];
    assert Split(Lower(t)) == ks;
    var ctrl := KeyboardState(false, true, false);
    assert Scan(ks, 1) == Step((NoModifiers, ""), "ctrl") == (ctrl, "");
    assert Scan(ks, 2) == Step((ctrl, ""), [c]) == (ctrl, [c]);
  }

  lemma LowerCtrl(k: char)
    ensures Lower(['C', 't', 'r', 'l', ' ', k]) == ['c', 't', 'r', 'l', ' ', LowerChar(k)]
  {
    var l := Lower(['C', 't', 'r', 'l', ' ', k]);
    assert l[0] == 'c' && l[1] == 't' && l[2] == 'r' && l[3] == 'l' && l[4] == ' ' && l[5] == LowerChar(k);
  }

  lemma SplitCtrl(c: char)
    requires c != ' '
    ensures Split(['c', 't', 'r', 'l', ' ', c]) == ["ctrl", [c]]
  {
    var l := ['c', 't', 'r', 'l', ' ', c];
    SplitAt(l, 4);
    assert l[..4] == "ctrl" && l[5..] == [c];
    SplitNone([c]);
  }

  /** The editor's default shortcut texts. */
  lemma DefaultShortcutTexts()
    ensures Parse("Delete") == Some(("delete", NoModifiers))
    ensures Parse("Ctrl C") == Some(("c", KeyboardState(false, true, false)))
    ensures Parse("Ctrl V") == Some(("v", KeyboardState(false, true, false)))
    ensures Parse("Ctrl D") == Some(("d", KeyboardState(false, true, false)))
    ensures Parse("Ctrl X") == Some(("x", KeyboardState(false, true, false)))
  {
    assert Lower("Delete") == "delete";
    SplitNone("delete");
    assert Scan(["delete"], 1) == (NoModifiers, "delete");
    CtrlLetter("Ctrl C", 'C');
    CtrlLetter("Ctrl V", 'V');
    CtrlLetter("Ctrl D", 'D');
    CtrlLetter("Ctrl X", 'X');
  }

  /** A trailing space adds an empty last piece. */
  lemma {:induction false} SplitTrailingSpace(a: string)
    ensures Split(a + " ") == Split(a) + [""]
    decreases |a|
  {
    var b := a + " ";
    var i := IndexOf(a, ' ');
    if i == -1 {
      assert b[..|a|] == a && b[|a| + 1..] == "";
      SplitAt(b, |a|);
      SplitNone(a);
      SplitNone("");
    } else {
      assert b[..i] == a[..i];
      assert b[i + 1..] == a[i + 1..] + " ";
      SplitAt(b, i);
      SplitAt(a, i);
      SplitTrailingSpace(a[i + 1..]);
    }
  }

  /** A trailing space leaves an empty last token, which becomes the key,
      so for instance "Ctrl C " is not a shortcut. */
  lemma ParseTrailingSpace(s: string)
    ensures Parse(s + " ") == None
  {
    assert Lower(s + " ") == Lower(s) + " ";
    SplitTrailingSpace(Lower(s));
    ParseSpec(s + " ");
  }

  /** The callback a shortcut runs, by identity. */
  type Action = nat

  /** `new KeyboardShortcut(fn, key, options)` */
  datatype Shortcut = Shortcut(fn: Action, key: string, options: KeyboardState)

  /** The constructor with its default options: no modifier. */
  function NewShortcut(fn: Action, key: string, options: KeyboardState := NoModifiers): (sc: Shortcut)
    ensures sc.fn == fn && sc.key == key && sc.options == options
  {
    Shortcut(fn, key, options)
  }

  /** `shortcut.call(key, keyboardState)` runs `fn` under this condition:
      the lowered event key is the stored key and every modifier flag
      agrees. */
  predicate Fires(sc: Shortcut, key: string, st: KeyboardState) {
    && Lower(key) == sc.key
    && sc.options.shift == st.shift && sc.options.ctrl == st.ctrl && sc.options.alt == st.alt
  }

  /** Exactly the stored modifier state fires: any extra or missing
      modifier prevents it. */
  lemma FiresIff(sc: Shortcut, key: string, st: KeyboardState)
    ensures Fires(sc, key, st) <==> Lower(key) == sc.key && st == sc.options
  {
  }

  /** A shortcut constructed with its default options fires only while no
      modifier is held. */
  lemma DefaultFiresBare(fn: Action, k: string, key: string, st: KeyboardState)
    requires Fires(NewShortcut(fn, k), key, st)
    ensures st == NoModifiers
  {
  }

  /** The event key is lowered, so a stored key with an upper-case letter
      never fires. */
  lemma UpperNeverFires(sc: Shortcut, key: string, st: KeyboardState, i: int)
    requires 0 <= i < |sc.key| && IsUpper(sc.key[i])
    ensures !Fires(sc, key, st)
  {
    LowerNoUpper(key);
  }

  /** A shortcut built from parsed text fires on its key, in either case,
      with exactly the parsed modifiers held. */
  lemma ParsedFires(s: string, fn: Action, key: string, st: KeyboardState)
    requires Parse(s) == Some((key, st))
    ensures Fires(Shortcut(fn, key, st), key, st)
    ensures forall e :: Lower(e) == key ==> Fires(Shortcut(fn, key, st), e, st)
  {
    ParseKeyClean(s);
    assert Lower(key) == key;
  }
}
