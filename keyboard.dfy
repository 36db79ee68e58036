/**
 * The typed-text buffer of the main page and the choice of layout. Each key
 * press outside a form field updates the buffer: Escape clears it, Backspace
 * drops its last character, and a key whose upper-case form is one letter
 * A-Z appends that letter. The layout is the typed text when there is any,
 * else the Letters control upper-cased with everything but A-Z removed, else
 * "Original".
 *
 * `String.prototype.toUpperCase` is modelled one character at a time: the
 * ASCII letters, and the three characters whose upper case is made of ASCII
 * letters that a keyboard can produce directly (dotless i, long s, sharp s).
 */
module Keyboard {
  import opened Wrappers

  predicate IsLetter(c: char) { 'A' <= c <= 'Z' }

  predicate AllLetters(s: string) {
    forall i :: 0 <= i < |s| ==> IsLetter(s[i])
  }

  /** The upper case of one character, as `toUpperCase` gives it. */
  function Upper(c: char): (u: string)
    ensures |u| >= 1
  {
    if 'a' <= c <= 'z' then [(c as int - 32) as char]
    else if c == '\U{131}' then "I"
    else if c == '\U{17F}' then "S"
    else if c == '\U{DF}' then "SS"
    else [c]
  }

  /** `s.toUpperCase()`, character by character. */
  function UpperString(s: string): string {
    if s == [] then [] else Upper(s[0]) + UpperString(s[1..])
  }

  /** Upper-casing never shortens a string. */
  lemma {:induction false} UpperLonger(s: string)
    ensures |UpperString(s)| >= |s|
  {
    if s != [] {
      UpperLonger(s[1..]);
    }
  }

  /** Upper-casing distributes over concatenation. */
  lemma {:induction false} UpperConcat(s: string, t: string)
    ensures UpperString(s + t) == UpperString(s) + UpperString(t)
  {
    if s == [] {
      assert s + t == t;
    } else {
      assert (s + t)[0] == s[0];
      assert (s + t)[1..] == s[1..] + t;
      UpperConcat(s[1..], t);
    }
  }

  /** Letters A-Z are their own upper case. */
  lemma {:induction false} UpperOfLetters(s: string)
    requires AllLetters(s)
    ensures UpperString(s) == s
  {
    if s != [] {
      UpperOfLetters(s[1..]);
    }
  }

  // The key handler.

  /** A `keydown` event: the tag name of its target and its `key`. */
  datatype KeyEvent = KeyEvent(tag: string, key: string)

  /** Events from Leva's form fields are left to them. */
  predicate FromFormField(e: KeyEvent) {
    e.tag == "INPUT" || e.tag == "TEXTAREA" || e.tag == "SELECT"
  }

  /** The letter a key appends: its upper-case form when that is exactly one letter A-Z. */
  function TypedLetter(key: string): Option<char> {
    var upper := UpperString(key);
    if |upper| == 1 && IsLetter(upper[0]) then Some(upper[0]) else None
  }

  /**
   * Exactly the one-character keys a-z, A-Z, dotless i and long s type a
   * letter, and the letter is the key's upper case.
   */
  lemma TypedLetterKeys(key: string)
    ensures TypedLetter(key).Some? <==>
      |key| == 1 && ('a' <= key[0] <= 'z' || IsLetter(key[0]) || key[0] == '\U{131}' || key[0] == '\U{17F}')
    ensures |key| == 1 && 'a' <= key[0] <= 'z' ==> TypedLetter(key) == Some((key[0] as int - 32) as char)
    ensures |key| == 1 && IsLetter(key[0]) ==> TypedLetter(key) == Some(key[0])
  {
    UpperLonger(key);
    if |key| == 1 {
      assert key[1..] == [];
      assert UpperString(key) == Upper(key[0]);
    } else if |key| > 1 {
      UpperLonger(key[1..]);
      assert |UpperString(key)| == |Upper(key[0])| + |UpperString(key[1..])|;
    }
  }

  /** The buffer after one `keydown` event. */
  function KeyDown(prev: string, e: KeyEvent): (next: string)
    ensures AllLetters(prev) ==> AllLetters(next)
  {
    if FromFormField(e) then prev
    else if e.key == "Escape" then ""
    else if e.key == "Backspace" then (if prev == [] then prev else prev[..|prev| - 1])
    else match TypedLetter(e.key)
      case Some(c) => prev + [c]
      case None => prev
  }

  /**
   * What one event does: form-field events leave the buffer as it is, Escape
   * empties it, Backspace removes its last character if it has one, a letter
   * key appends one letter, and every other key changes nothing.
   */
  lemma KeyDownEffect(prev: string, e: KeyEvent)
    ensures FromFormField(e) ==> KeyDown(prev, e) == prev
    ensures !FromFormField(e) && e.key == "Escape" ==> KeyDown(prev, e) == []
    ensures !FromFormField(e) && e.key == "Backspace" ==>
      |KeyDown(prev, e)| == if prev == [] then 0 else |prev| - 1
    ensures !FromFormField(e) && e.key == "Backspace" ==> KeyDown(prev, e) <= prev
    ensures !FromFormField(e) && e.key != "Escape" && e.key != "Backspace" ==>
      (TypedLetter(e.key).Some? ==>
        KeyDown(prev, e) == prev + [TypedLetter(e.key).value] && IsLetter(TypedLetter(e.key).value))
      && (TypedLetter(e.key).None? ==> KeyDown(prev, e) == prev)
  {
  }

  /** Backspace straight after a letter key undoes it. */
  lemma BackspaceUndoes(prev: string, tag: string, key: string)
    requires TypedLetter(key).Some?
    ensures !FromFormField(KeyEvent(tag, key)) ==>
      KeyDown(KeyDown(prev, KeyEvent(tag, key)), KeyEvent(tag, "Backspace")) == prev
  {
    TypedLetterKeys(key);
    assert key != "Escape" && key != "Backspace";
  }

  /** The buffer after a sequence of events, starting from prev. */
  function Replay(prev: string, events: seq<KeyEvent>): string
    decreases events
  {
    if events == [] then prev else Replay(KeyDown(prev, events[0]), events[1..])
  }

  /** Starting from letters, the buffer only ever holds letters A-Z. */
  lemma {:induction false} ReplayLetters(prev: string, events: seq<KeyEvent>)
    requires AllLetters(prev)
    ensures AllLetters(Replay(prev, events))
    decreases events
  {
    if events != [] {
      ReplayLetters(KeyDown(prev, events[0]), events[1..]);
    }
  }

  /** Replaying two runs of events one after the other is replaying their concatenation. */
  lemma {:induction false} ReplayConcat(prev: string, es: seq<KeyEvent>, fs: seq<KeyEvent>)
    ensures Replay(prev, es + fs) == Replay(Replay(prev, es), fs)
    decreases es
  {
    if es == [] {
      assert es + fs == fs;
    } else {
      assert (es + fs)[0] == es[0];
      assert (es + fs)[1..] == es[1..] + fs;
      ReplayConcat(KeyDown(prev, es[0]), es[1..], fs);
    }
  }

  /** Escape forgets everything typed before it. */
  lemma EscapeForgets(prev: string, es: seq<KeyEvent>, tag: string, fs: seq<KeyEvent>)
    requires !FromFormField(KeyEvent(tag, "Escape"))
    ensures Replay(prev, es + [KeyEvent(tag, "Escape")] + fs) == Replay([], fs)
  {
    ReplayConcat(prev, es + [KeyEvent(tag, "Escape")], fs);
    ReplayConcat(prev, es, [KeyEvent(tag, "Escape")]);
    var mid := Replay(prev, es);
    assert Replay(mid, [KeyEvent(tag, "Escape")]) == Replay(KeyDown(mid, KeyEvent(tag, "Escape")), []);
  }

  /** The events of typing the characters of w one key at a time on the page. */
  function Presses(w: string): seq<KeyEvent> {
    if w == [] then [] else [KeyEvent("BODY", [w[0]])] + Presses(w[1..])
  }

  /** Every character of w is a key a-z or A-Z. */
  predicate LetterKeys(w: string) {
    forall i :: 0 <= i < |w| ==> 'a' <= w[i] <= 'z' || IsLetter(w[i])
  }

  /** Pressing a letter key on the page appends the key's upper case. */
  lemma LetterPress(prev: string, c: char)
    requires 'a' <= c <= 'z' || IsLetter(c)
    ensures KeyDown(prev, KeyEvent("BODY", [c])) == prev + Upper(c)
  {
    TypedLetterKeys([c]);
    assert [c] != "Escape" && [c] != "Backspace";
  }

  /** Typing a word of letters, in either case, appends the word in upper case. */
  lemma {:induction false} TypeWord(prev: string, w: string)
    requires LetterKeys(w)
    ensures Replay(prev, Presses(w)) == prev + UpperString(w)
    decreases w
  {
    if w != [] {
      var c := w[0];
      var es := Presses(w);
      var rest := Presses(w[1..]);
      assert es == [KeyEvent("BODY", [c])] + rest;
      assert es[0] == KeyEvent("BODY", [c]) && es[1..] == rest;
      LetterPress(prev, c);
      var next := prev + Upper(c);
      assert Replay(prev, es) == Replay(next, rest);
      assert LetterKeys(w[1..]);
      TypeWord(next, w[1..]);
      assert UpperString(w) == Upper(c) + UpperString(w[1..]);
      assert next + UpperString(w[1..]) == prev + (Upper(c) + UpperString(w[1..]));
    }
  }

  // Choosing the layout.

  /** `letters.toUpperCase().replace(/[^A-Z]/g, "")`. */
  function FilterLetters(s: string): string {
    Keep(UpperString(s))
  }

  /** The characters A-Z of s, in order. */
  function Keep(s: string): (k: string)
    ensures |k| <= |s| && AllLetters(k)
  {
    if s == [] then [] else (if IsLetter(s[0]) then [s[0]] else []) + Keep(s[1..])
  }

  /** Keeping distributes over concatenation. */
  lemma {:induction false} KeepConcat(s: string, t: string)
    ensures Keep(s + t) == Keep(s) + Keep(t)
  {
    if s == [] {
      assert s + t == t;
    } else {
      var head := if IsLetter(s[0]) then [s[0]] else [];
      assert (s + t)[0] == s[0];
      assert (s + t)[1..] == s[1..] + t;
      assert Keep(s + t) == head + Keep(s[1..] + t);
      KeepConcat(s[1..], t);
      assert Keep(s) == head + Keep(s[1..]);
      assert head + (Keep(s[1..]) + Keep(t)) == (head + Keep(s[1..])) + Keep(t);
    }
  }

  /** A string of letters is kept whole. */
  lemma {:induction false} KeepLetters(s: string)
    requires AllLetters(s)
    ensures Keep(s) == s
  {
    if s != [] {
      KeepLetters(s[1..]);
    }
  }

  /** Filtering removes nothing from a string of letters A-Z, so filtering twice is filtering once. */
  lemma FilterIdempotent(s: string)
    ensures FilterLetters(s) == s <==> AllLetters(s)
    ensures FilterLetters(FilterLetters(s)) == FilterLetters(s)
  {
    if AllLetters(s) {
      UpperOfLetters(s);
      KeepLetters(s);
    }
    var f := FilterLetters(s);
    UpperOfLetters(f);
    KeepLetters(f);
  }

  /** Filtering two strings one after the other is filtering their concatenation. */
  lemma FilterConcat(s: string, t: string)
    ensures FilterLetters(s + t) == FilterLetters(s) + FilterLetters(t)
  {
    UpperConcat(s, t);
    KeepConcat(UpperString(s), UpperString(t));
  }

  /** The layout: the typed text, else the filtered Letters control, else "Original". */
  function SelectLayout(typed: string, letters: string): string {
    if |typed| > 0 then typed
    else if |FilterLetters(letters)| > 0 then FilterLetters(letters)
    else "Original"
  }

  /**
   * With a buffer of letters, the layout is "Original" exactly when nothing is
   * typed and the Letters control holds no letter; otherwise it is a non-empty
   * string of letters A-Z (so never "Original"), the typed text taking priority.
   */
  lemma SelectLayoutCases(typed: string, letters: string)
    requires AllLetters(typed)
    ensures SelectLayout(typed, letters) == "Original" <==> typed == [] && FilterLetters(letters) == []
    ensures SelectLayout(typed, letters) != "Original" ==>
      |SelectLayout(typed, letters)| > 0 && AllLetters(SelectLayout(typed, letters))
    ensures typed != [] ==> SelectLayout(typed, letters) == typed
  {
    assert !IsLetter("Original"[1]);
  }
}
