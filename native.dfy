/**
 * The native settings store: a map from keys to serialized values, kept in a text file
 * of `key = value` lines. The file itself is a string field; creating, reading and
 * writing it on disk is not modelled.
 */
module NativeStore {
  import opened Util
  import opened Serialize

  // ---------------------------------------------------------------------------
  // Text helpers with the standard library's meaning

  /** `char::is_whitespace`: the Unicode White_Space property. */
  predicate IsWhitespace(c: char) {
    var v := c as int;
    (0x09 <= v <= 0x0D) || v == 0x20 || v == 0x85 || v == 0xA0 || v == 0x1680 ||
    (0x2000 <= v <= 0x200A) || v == 0x2028 || v == 0x2029 || v == 0x202F ||
    v == 0x205F || v == 0x3000
  }

  function TrimStart(s: string): (r: string)
    ensures r == [] || !IsWhitespace(r[0])
  {
    if s != [] && IsWhitespace(s[0]) then TrimStart(s[1..]) else s
  }

  function TrimEnd(s: string): (r: string)
    ensures r == [] || !IsWhitespace(r[|r| - 1])
  {
    if s != [] && IsWhitespace(s[|s| - 1]) then TrimEnd(s[..|s| - 1]) else s
  }

  /** `str::trim`. */
  function Trim(s: string): string {
    TrimEnd(TrimStart(s))
  }

  /** Text that `trim` leaves as it is. */
  predicate Trimmed(s: string) {
    s == [] || (!IsWhitespace(s[0]) && !IsWhitespace(s[|s| - 1]))
  }

  lemma TrimmedIsTrim(s: string)
    requires Trimmed(s)
    ensures Trim(s) == s
  {
  }

  lemma TrimSpaceAfter(s: string)
    requires Trimmed(s)
    ensures Trim(s + " ") == s
  {
    if s == [] {
      assert TrimStart(" ") == TrimStart(" "[1..]);
    } else {
      assert (s + " ")[0] == s[0];
      assert TrimStart(s + " ") == s + " ";
      assert (s + " ")[..|s|] == s;
      assert TrimEnd(s + " ") == TrimEnd(s);
      assert TrimEnd(s) == s;
    }
  }

  lemma TrimSpaceBefore(s: string)
    requires Trimmed(s)
    ensures Trim(" " + s) == s
  {
    assert (" " + s)[1..] == s;
    assert TrimStart(" " + s) == TrimStart(s);
    if s != [] {
      assert TrimStart(s) == s;
      assert TrimEnd(s) == s;
    }
  }

  /** One line of `str::lines`: the `\n` is gone, and so is a `\r` just before it. */
  function StripCR(l: string): string {
    if l != [] && l[|l| - 1] == '\r' then l[..|l| - 1] else l
  }

  /** `str::lines`: text split at each `\n`, a final line without `\n` kept as it is, no
      empty line after a final `\n`. */
  function Lines(s: string): seq<string>
    decreases |s|
  {
    if s == [] then []
    else if '\n' !in s then [s]
    else
      var i := FirstIndex(s, '\n');
      [StripCR(s[..i])] + Lines(s[i + 1..])
  }

  lemma LinesPrefix(l: string, rest: string)
    requires '\n' !in l
    ensures Lines(l + "\n" + rest) == [StripCR(l)] + Lines(rest)
  {
    var s := l + "\n" + rest;
    assert s[|l|] == '\n';
    var i := FirstIndex(s, '\n');
    assert forall j :: 0 <= j < |l| ==> s[j] == l[j];
    assert i == |l|;
    assert s[..i] == l && s[i + 1..] == rest;
  }

  // ---------------------------------------------------------------------------
  // One line of the file

  /** `split('=')` yields a second piece: the line holds a `=`. Reading a line without
      one, a blank line included, panics. */
  predicate HasValue(l: string) {
    '=' in l
  }

  /** The first piece of `split('=')`, trimmed. */
  function LineKey(l: string): string
    requires HasValue(l)
  {
    Trim(l[..FirstIndex(l, '=')])
  }

  /** The second piece of `split('=')`, trimmed; pieces after a second `=` are dropped. */
  function LineValue(l: string): string
    requires HasValue(l)
  {
    var after := l[FirstIndex(l, '=') + 1..];
    Trim(if '=' in after then after[..FirstIndex(after, '=')] else after)
  }

  /** Every line can be read. */
  predicate AllHaveValues(ls: seq<string>) {
    forall k :: 0 <= k < |ls| ==> HasValue(ls[k])
  }

  /** The map the file's lines build, a later line overriding an earlier one. */
  function ParsedMap(ls: seq<string>): map<string, string>
    requires AllHaveValues(ls)
  {
    if ls == [] then map[]
    else ParsedMap(ls[..|ls| - 1])[LineKey(ls[|ls| - 1]) := LineValue(ls[|ls| - 1])]
  }

  /** The keys of the map are exactly the keys of the lines. */
  lemma ParsedMapKeys(ls: seq<string>, key: string)
    requires AllHaveValues(ls)
    ensures key in ParsedMap(ls) <==> exists i :: 0 <= i < |ls| && LineKey(ls[i]) == key
  {
    if key in ParsedMap(ls) {
      var i := ParsedKeyLine(ls, key);
    } else {
      forall i | 0 <= i < |ls|
        ensures LineKey(ls[i]) != key
      {
        LineKeyParsed(ls, i);
      }
    }
  }

  /** A key of the map comes from some line. */
  lemma {:induction false} ParsedKeyLine(ls: seq<string>, key: string) returns (i: nat)
    requires AllHaveValues(ls) && key in ParsedMap(ls)
    ensures i < |ls| && LineKey(ls[i]) == key
  {
    var init := ls[..|ls| - 1];
    if LineKey(ls[|ls| - 1]) == key {
      i := |ls| - 1;
    } else {
      assert AllHaveValues(init);
      i := ParsedKeyLine(init, key);
      assert ls[i] == init[i];
    }
  }

  /** Every line's key is in the map. */
  lemma {:induction false} LineKeyParsed(ls: seq<string>, i: nat)
    requires AllHaveValues(ls) && i < |ls|
    ensures LineKey(ls[i]) in ParsedMap(ls)
  {
    if i < |ls| - 1 {
      var init := ls[..|ls| - 1];
      assert AllHaveValues(init) && init[i] == ls[i];
      LineKeyParsed(init, i);
    }
  }

  /** The value under a key is the value of the last line with that key. */
  lemma {:induction false} LastLineWins(ls: seq<string>, i: nat)
    requires AllHaveValues(ls)
    requires i < |ls|
    requires forall j :: i < j < |ls| ==> LineKey(ls[j]) != LineKey(ls[i])
    ensures LineKey(ls[i]) in ParsedMap(ls)
    ensures ParsedMap(ls)[LineKey(ls[i])] == LineValue(ls[i])
  {
    if i < |ls| - 1 {
      var init := ls[..|ls| - 1];
      assert init[i] == ls[i];
      LastLineWins(init, i);
    }
  }

  // ---------------------------------------------------------------------------
  // Writing the file

  /** `format!("{} = {}\n", key, value)` without its line break. */
  function EntryLine(key: string, value: string): string {
    key + " = " + value
  }

  /** An entry `write` can emit and the reader gets back: no `=`, no line break and no
      whitespace at either end, in key and value alike. */
  predicate CleanEntry(key: string, value: string) {
    '=' !in key && '=' !in value && '\n' !in key && '\n' !in value && Trimmed(key) && Trimmed(value)
  }

  predicate Clean(m: map<string, string>) {
    forall k :: k in m ==> CleanEntry(k, m[k])
  }

  lemma EntryLineParses(key: string, value: string)
    requires CleanEntry(key, value)
    ensures '\n' !in EntryLine(key, value) && StripCR(EntryLine(key, value)) == EntryLine(key, value)
    ensures HasValue(EntryLine(key, value))
    ensures LineKey(EntryLine(key, value)) == key && LineValue(EntryLine(key, value)) == value
  {
    EntryLineSplit(key, value);
    EntryLineBreakFree(key, value);
    TrimSpaceAfter(key);
    TrimSpaceBefore(value);
  }

  /** The first `=` of an entry line is the one `write` put there. */
  lemma EntryLineSplit(key: string, value: string)
    requires '=' !in key
    ensures HasValue(EntryLine(key, value))
    ensures EntryLine(key, value)[..FirstIndex(EntryLine(key, value), '=')] == key + " "
    ensures EntryLine(key, value)[FirstIndex(EntryLine(key, value), '=') + 1..] == " " + value
  {
    var l := EntryLine(key, value);
    assert l[|key| + 1] == '=';
    var i := FirstIndex(l, '=');
    assert forall j :: 0 <= j < |key| ==> l[j] == key[j];
    assert l[|key|] == ' ';
    assert i == |key| + 1;
    assert l == (key + " =") + (" " + value);
  }

  lemma EntryLineBreakFree(key: string, value: string)
    requires '\n' !in key && '\n' !in value && Trimmed(value)
    ensures '\n' !in EntryLine(key, value) && StripCR(EntryLine(key, value)) == EntryLine(key, value)
  {
    var l := EntryLine(key, value);
    assert forall j :: 0 <= j < |key| ==> l[j] == key[j];
    assert forall j :: |key| + 3 <= j < |l| ==> l[j] == value[j - |key| - 3];
    if value != [] {
      assert l[|l| - 1] == value[|value| - 1];
    }
  }

  /** The text `write` produces when it visits the keys in the order `ks`. */
  function Rendered(m: map<string, string>, ks: seq<string>): string
    requires forall j :: 0 <= j < |ks| ==> ks[j] in m
  {
    if ks == [] then "" else EntryLine(ks[0], m[ks[0]]) + "\n" + Rendered(m, ks[1..])
  }

  /** Visiting one more key appends its line. */
  lemma {:induction false} RenderedSnoc(m: map<string, string>, ks: seq<string>, k: string)
    requires forall j :: 0 <= j < |ks| ==> ks[j] in m
    requires k in m
    ensures Rendered(m, ks + [k]) == Rendered(m, ks) + (EntryLine(k, m[k]) + "\n")
  {
    if ks != [] {
      assert (ks + [k])[1..] == ks[1..] + [k];
      RenderedSnoc(m, ks[1..], k);
    } else {
      assert [k][1..] == [];
    }
  }

  /** The lines of the rendered text, in visiting order. */
  function EntryLines(m: map<string, string>, ks: seq<string>): (ls: seq<string>)
    requires forall j :: 0 <= j < |ks| ==> ks[j] in m
    ensures |ls| == |ks| && forall j :: 0 <= j < |ks| ==> ls[j] == EntryLine(ks[j], m[ks[j]])
  {
    seq(|ks|, j requires 0 <= j < |ks| => EntryLine(ks[j], m[ks[j]]))
  }

  lemma EntryLinesCons(m: map<string, string>, ks: seq<string>)
    requires forall j :: 0 <= j < |ks| ==> ks[j] in m
    requires ks != []
    ensures EntryLines(m, ks) == [EntryLine(ks[0], m[ks[0]])] + EntryLines(m, ks[1..])
  {
  }

  lemma {:induction false} RenderedLines(m: map<string, string>, ks: seq<string>)
    requires forall j :: 0 <= j < |ks| ==> ks[j] in m
    requires Clean(m)
    ensures Lines(Rendered(m, ks)) == EntryLines(m, ks)
  {
    if ks != [] {
      var l, rest := EntryLine(ks[0], m[ks[0]]), ks[1..];
      RenderedLines(m, rest);
      EntryLineParses(ks[0], m[ks[0]]);
      LinesPrefix(l, Rendered(m, rest));
      EntryLinesCons(m, ks);
    }
  }

  /** Each line of the rendered text reads back as its own key and value. */
  lemma EntryLinesRead(m: map<string, string>, ks: seq<string>)
    requires forall j :: 0 <= j < |ks| ==> ks[j] in m
    requires Clean(m)
    ensures AllHaveValues(EntryLines(m, ks))
    ensures forall j :: 0 <= j < |ks| ==>
      LineKey(EntryLines(m, ks)[j]) == ks[j] && LineValue(EntryLines(m, ks)[j]) == m[ks[j]]
  {
    forall j | 0 <= j < |ks|
      ensures HasValue(EntryLines(m, ks)[j])
      ensures LineKey(EntryLines(m, ks)[j]) == ks[j] && LineValue(EntryLines(m, ks)[j]) == m[ks[j]]
    {
      EntryLineParses(ks[j], m[ks[j]]);
    }
  }

  /** Reading back what `write` produced, in any visiting order that meets every key once,
      gives the map again when its entries are clean. */
  lemma RenderedParses(m: map<string, string>, ks: seq<string>)
    requires Clean(m) && Distinct(ks)
    requires forall k :: k in m <==> k in ks
    ensures AllHaveValues(Lines(Rendered(m, ks)))
    ensures ParsedMap(Lines(Rendered(m, ks))) == m
  {
    RenderedLines(m, ks);
    ParsedEntryLines(m, ks);
  }

  /** Distinct keys covering the map: the lines build the map again. */
  lemma ParsedEntryLines(m: map<string, string>, ks: seq<string>)
    requires Clean(m) && Distinct(ks)
    requires forall k :: k in m <==> k in ks
    ensures AllHaveValues(EntryLines(m, ks))
    ensures ParsedMap(EntryLines(m, ks)) == m
  {
    EntryLinesRead(m, ks);
    var p := ParsedMap(EntryLines(m, ks));
    ParsedCovers(m, ks);
    ParsedWithin(m, ks);
    SameEntries(p, m);
  }

  lemma SameEntries(p: map<string, string>, m: map<string, string>)
    requires forall k :: k in m ==> k in p && p[k] == m[k]
    requires forall k :: k in p ==> k in m
    ensures p == m
  {
    assert p.Keys == m.Keys;
  }

  lemma ParsedCovers(m: map<string, string>, ks: seq<string>)
    requires Clean(m) && Distinct(ks)
    requires forall k :: k in m <==> k in ks
    ensures AllHaveValues(EntryLines(m, ks))
    ensures forall k :: k in m ==> k in ParsedMap(EntryLines(m, ks)) && ParsedMap(EntryLines(m, ks))[k] == m[k]
  {
    EntryLinesRead(m, ks);
    forall k | k in m
      ensures k in ParsedMap(EntryLines(m, ks)) && ParsedMap(EntryLines(m, ks))[k] == m[k]
    {
      var i :| 0 <= i < |ks| && ks[i] == k;
      ParsedEntryValue(m, ks, i);
    }
  }

  lemma ParsedWithin(m: map<string, string>, ks: seq<string>)
    requires Clean(m)
    requires forall k :: k in m <==> k in ks
    ensures AllHaveValues(EntryLines(m, ks))
    ensures forall k :: k in ParsedMap(EntryLines(m, ks)) ==> k in m
  {
    EntryLinesRead(m, ks);
    forall k | k in ParsedMap(EntryLines(m, ks))
      ensures k in m
    {
      ParsedEntryKey(m, ks, k);
    }
  }

  lemma ParsedEntryValue(m: map<string, string>, ks: seq<string>, i: nat)
    requires Clean(m) && Distinct(ks) && i < |ks|
    requires forall j :: 0 <= j < |ks| ==> ks[j] in m
    ensures AllHaveValues(EntryLines(m, ks))
    ensures ks[i] in ParsedMap(EntryLines(m, ks)) && ParsedMap(EntryLines(m, ks))[ks[i]] == m[ks[i]]
  {
    EntryLinesRead(m, ks);
    var ls := EntryLines(m, ks);
    assert forall j :: i < j < |ls| ==> LineKey(ls[j]) != LineKey(ls[i]) by {
      forall j | i < j < |ls|
        ensures LineKey(ls[j]) != LineKey(ls[i])
      {
        assert ks[j] != ks[i];
      }
    }
    LastLineWins(ls, i);
  }

  lemma ParsedEntryKey(m: map<string, string>, ks: seq<string>, k: string)
    requires Clean(m)
    requires forall j :: 0 <= j < |ks| ==> ks[j] in m
    ensures AllHaveValues(EntryLines(m, ks))
    ensures k in ParsedMap(EntryLines(m, ks)) ==> k in ks
  {
    EntryLinesRead(m, ks);
    var ls := EntryLines(m, ks);
    ParsedMapKeys(ls, k);
    if k in ParsedMap(ls) {
      var i :| 0 <= i < |ls| && LineKey(ls[i]) == k;
      assert ks[i] == k;
    }
  }

  // ---------------------------------------------------------------------------
  // Reading a value

  /** `get`: `Err` for a missing key, otherwise the stored text deserialized as `kind`. */
  function Lookup(m: map<string, string>, key: string, kind: Kind): (r: Result<Stored, ()>)
    requires key in m ==> DeserializeValue(kind, m[key]).Some?
    ensures r.Err? <==> key !in m
    ensures r.Ok? ==> KindOf(r.value) == kind
  {
    if key !in m then Err(()) else Ok(DeserializeValue(kind, m[key]).value)
  }

  /** After storing a value, reading it with its own kind gives it back, and the other keys
      read as before. */
  lemma LookupAfterInsert(m: map<string, string>, key: string, v: Stored, other: string, kind: Kind)
    requires other != key && (other in m ==> DeserializeValue(kind, m[other]).Some?)
    ensures DeserializeValue(KindOf(v), m[key := SerializeValue(v)][key]).Some?
    ensures Lookup(m[key := SerializeValue(v)], key, KindOf(v)) == Ok(v)
    ensures Lookup(m[key := SerializeValue(v)], other, kind) == Lookup(m, other, kind)
  {
    ValueRoundTrip(v);
  }

  // ---------------------------------------------------------------------------
  // The store

  /** `FileStore`: the map and the text of its file. */
  class FileStore {
    var entries: map<string, string>
    var file: string

    /** `FileStore::new` on a file holding `text` (empty when it had to be created). */
    constructor (text: string)
      requires AllHaveValues(Lines(text))
      ensures entries == ParsedMap(Lines(text)) && file == text
    {
      var ls := Lines(text);
      var m: map<string, string> := map[];
      var i := 0;
      while i < |ls|
        invariant 0 <= i <= |ls|
        invariant m == ParsedMap(ls[..i])
      {
        var line := ls[i];
        var key := LineKey(line);
        var value := LineValue(line);
        assert ls[..i + 1][..i] == ls[..i];
        m := m[key := value];
        i := i + 1;
      }
      assert ls[..i] == ls;
      entries := m;
      file := text;
    }

    /** `write`: one `key = value` line per entry, in the map's iteration order. */
    method Write()
      modifies this
      ensures entries == old(entries)
      ensures exists ks :: Distinct(ks) && (forall k :: k in entries <==> k in ks) && file == Rendered(entries, ks)
      ensures Clean(entries) ==> AllHaveValues(Lines(file)) && ParsedMap(Lines(file)) == entries
    {
      var m := entries;
      var text := "";
      ghost var ks: seq<string> := [];
      var remaining := m.Keys;
      while remaining != {}
        invariant entries == m && remaining <= m.Keys
        invariant Distinct(ks)
        invariant forall k :: k in ks <==> k in m && k !in remaining
        invariant text == Rendered(m, ks)
        decreases |remaining|
      {
        var key :| key in remaining;
        text := text + (key + " = " + m[key] + "\n");
        RenderedSnoc(m, ks, key);
        ks := ks + [key];
        remaining := remaining - {key};
      }
      file := text;
      if Clean(m) {
        RenderedParses(m, ks);
      }
    }

    /** `get`. Deserializing text of the wrong form panics, so the caller must ask for
        the kind the key holds. */
    function Get(key: string, kind: Kind): (r: Result<Stored, ()>)
      reads this
      requires key in entries ==> DeserializeValue(kind, entries[key]).Some?
      ensures r.Err? <==> key !in entries
      ensures r.Ok? ==> KindOf(r.value) == kind && DeserializeValue(kind, entries[key]) == Some(r.value)
    {
      Lookup(entries, key, kind)
    }

    /** `set`: stores the serialized value under the key and rewrites the file. */
    method Set(key: string, value: Stored)
      modifies this
      ensures entries == old(entries)[key := SerializeValue(value)]
      ensures DeserializeValue(KindOf(value), entries[key]).Some? && Get(key, KindOf(value)) == Ok(value)
      ensures Clean(entries) ==> AllHaveValues(Lines(file)) && ParsedMap(Lines(file)) == entries
    {
      var text := SerializeValue(value);
      entries := entries[key := text];
      ValueRoundTrip(value);
      Write();
    }
  }
}
