/**
 * The settings screen: the username typed so far and saving it to the store.
 *
 * `char::is_alphanumeric` depends on the Unicode tables and is a parameter. The length
 * test reads `String::len`, a length in bytes, so a name may end up to three bytes over
 * the limit when its last character is wide.
 */
module SettingsMenu {
  import opened Util
  import opened Serialize
  import opened NativeStore
  import opened GameEvents

  /** The byte limit under which typed characters are still appended. */
  const NameLimit: nat := 15

  /** Alphanumeric, `_` or space. */
  predicate Allowed(c: char, isAlphanumeric: char -> bool) {
    isAlphanumeric(c) || c == '_' || c == ' '
  }

  /** The typed characters the name accepts, limit aside, in the order typed. */
  function AllowedChars(typed: seq<char>, isAlphanumeric: char -> bool): (r: seq<char>)
    ensures |r| <= |typed|
    ensures forall k :: 0 <= k < |r| ==> Allowed(r[k], isAlphanumeric)
  {
    if typed == [] then []
    else
      var c := typed[|typed| - 1];
      AllowedChars(typed[..|typed| - 1], isAlphanumeric) + (if Allowed(c, isAlphanumeric) then [c] else [])
  }

  /** What typing `done` did to `start`: it appended a prefix of the allowed characters,
      all of them unless the name reached the limit, and each while under the limit. */
  ghost predicate Typing(start: string, name: string, done: seq<char>, isAlphanumeric: char -> bool) {
    start <= name &&
    name[|start|..] <= AllowedChars(done, isAlphanumeric) &&
    (name[|start|..] == AllowedChars(done, isAlphanumeric) || ByteLen(name) >= NameLimit) &&
    (name != start ==> ByteLen(name[..|name| - 1]) < NameLimit)
  }

  /** One typed character: appended when it is allowed and the name is under the limit. */
  function TypeOne(name: string, c: char, isAlphanumeric: char -> bool): string {
    if ByteLen(name) < NameLimit && Allowed(c, isAlphanumeric) then name + [c] else name
  }

  lemma TypingStep(start: string, name: string, typed: seq<char>, i: nat, isAlphanumeric: char -> bool)
    requires i < |typed| && Typing(start, name, typed[..i], isAlphanumeric)
    ensures Typing(start, TypeOne(name, typed[i], isAlphanumeric), typed[..i + 1], isAlphanumeric)
  {
    var c := typed[i];
    var done := typed[..i];
    assert typed[..i + 1] == done + [c];
    AllowedCharsSnoc(done, c, isAlphanumeric);
    if ByteLen(name) < NameLimit && Allowed(c, isAlphanumeric) {
      TypingAppend(start, name, done, c, isAlphanumeric);
    } else {
      TypingKeep(start, name, done, c, isAlphanumeric);
    }
  }

  lemma AllowedCharsSnoc(done: seq<char>, c: char, isAlphanumeric: char -> bool)
    ensures AllowedChars(done + [c], isAlphanumeric) ==
            AllowedChars(done, isAlphanumeric) + (if Allowed(c, isAlphanumeric) then [c] else [])
  {
    assert (done + [c])[..|done|] == done;
  }

  /** An allowed character typed under the limit extends the name. */
  lemma TypingAppend(start: string, name: string, done: seq<char>, c: char, isAlphanumeric: char -> bool)
    requires Typing(start, name, done, isAlphanumeric)
    requires ByteLen(name) < NameLimit && Allowed(c, isAlphanumeric)
    requires AllowedChars(done + [c], isAlphanumeric) == AllowedChars(done, isAlphanumeric) + [c]
    ensures Typing(start, name + [c], done + [c], isAlphanumeric)
  {
    var longer := name + [c];
    assert longer[..|longer| - 1] == name;
    assert longer[|start|..] == name[|start|..] + [c];
  }

  /** A character that is not allowed, or typed at the limit, leaves the name alone. */
  lemma TypingKeep(start: string, name: string, done: seq<char>, c: char, isAlphanumeric: char -> bool)
    requires Typing(start, name, done, isAlphanumeric)
    requires !(ByteLen(name) < NameLimit && Allowed(c, isAlphanumeric))
    requires AllowedChars(done + [c], isAlphanumeric) ==
             AllowedChars(done, isAlphanumeric) + (if Allowed(c, isAlphanumeric) then [c] else [])
    ensures Typing(start, name, done + [c], isAlphanumeric)
  {
  }

  /** The loop of `update_name` over the characters typed this frame. */
  method TypeChars(start: string, typed: seq<char>, isAlphanumeric: char -> bool) returns (s: string)
    ensures Typing(start, s, typed, isAlphanumeric)
  {
    s := start;
    var i := 0;
    while i < |typed|
      invariant 0 <= i <= |typed|
      invariant Typing(start, s, typed[..i], isAlphanumeric)
    {
      TypingStep(start, s, typed, i, isAlphanumeric);
      s := TypeOne(s, typed[i], isAlphanumeric);
      i := i + 1;
    }
    assert typed[..i] == typed;
  }

  /** `Username`. */
  class Username {
    var name: string

    constructor (initial: string)
      ensures name == initial
    {
      name := initial;
    }

    /** `update_name`: backspace pops one character and ignores what was typed; otherwise
        each allowed character is appended while the name is under 15 bytes. */
    method UpdateName(typed: seq<char>, back: bool, isAlphanumeric: char -> bool)
      modifies this
      ensures back ==> name == (if old(name) == [] then [] else old(name)[..|old(name)| - 1])
      ensures !back ==> Typing(old(name), name, typed, isAlphanumeric)
    {
      if back {
        if name != [] {
          name := name[..|name| - 1];
        }
      } else {
        name := TypeChars(name, typed, isAlphanumeric);
      }
    }

    /** `handle_action` for the back button: on a left-button release the menu returns
        to the main menu and the name is saved under `username`; otherwise nothing
        happens. */
    method HandleAction(store: FileStore, released: bool) returns (events: seq<UiEvent>)
      modifies store
      ensures events == (if released then [MainMenu] else [])
      ensures released ==> store.entries == old(store.entries)["username" := SerializeString(name)]
      ensures released ==> store.Get("username", StrKind) == Ok(StrValue(name))
      ensures !released ==> store.entries == old(store.entries) && store.file == old(store.file)
    {
      events := [];
      if released {
        events := [MainMenu];
        store.Set("username", StrValue(name));
      }
    }
  }

  /** A name of at most 18 bytes stays within 18 bytes: only a name under 15 bytes grows,
      by one character of at most 4 bytes at a time. */
  lemma NameStaysShort(before: string, after: string)
    requires ByteLen(before) <= NameLimit + 3
    requires before <= after
    requires after != before ==> ByteLen(after[..|after| - 1]) < NameLimit
    ensures ByteLen(after) <= NameLimit + 3
  {
    if after != before {
      var init := after[..|after| - 1];
      assert after == init + [after[|after| - 1]];
      ByteLenAppend(init, after[|after| - 1]);
    }
  }
}
