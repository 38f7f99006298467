/**
 * The join screen: the room code typed so far, its on-screen form, the Join button's
 * enabled flag and the button handler.
 */
module JoinMenu {
  import opened Util
  import opened Serialize
  import opened GameEvents

  /** The keyboard characters that are ASCII digits, in the order typed. */
  function TypedDigits(typed: seq<char>): (ds: seq<char>)
    ensures |ds| <= |typed| && AllDigits(ds)
  {
    if typed == [] then []
    else TypedDigits(typed[..|typed| - 1]) + (if IsDigit(typed[|typed| - 1]) then [typed[|typed| - 1]] else [])
  }

  /** The code after a frame: the digits typed are appended while it has fewer than four,
      then backspace removes its last character. */
  function CodeAfter(code: string, typed: seq<char>, back: bool): string
    requires |code| <= 4
  {
    var kept := Kept(code, typed);
    if back && kept != [] then kept[..|kept| - 1] else kept
  }

  /** The code followed by as many of the typed digits as fit in four characters. */
  function Kept(code: string, typed: seq<char>): (kept: string)
    requires |code| <= 4
    ensures |kept| <= 4
  {
    var ds := TypedDigits(typed);
    code + ds[..Min(4 - |code|, |ds|)]
  }

  /** One more typed character is appended exactly when it is a digit and there is room. */
  lemma KeptStep(code: string, typed: seq<char>, c: char)
    requires |code| <= 4
    ensures Kept(code, typed + [c]) ==
      if |Kept(code, typed)| < 4 && IsDigit(c) then Kept(code, typed) + [c] else Kept(code, typed)
  {
    assert (typed + [c])[..|typed|] == typed;
    var ds := TypedDigits(typed);
    if IsDigit(c) {
      assert TypedDigits(typed + [c]) == ds + [c];
      if |Kept(code, typed)| < 4 {
        assert (ds + [c])[..|ds| + 1] == ds + [c];
      } else {
        assert (ds + [c])[..4 - |code|] == ds[..4 - |code|];
      }
    }
  }

  /** `u16::from_str`: an optional `+`, then at least one digit, and a value below 2^16. */
  function ParseU16(s: string): (r: Option<nat>)
    ensures r.Some? ==> r.value < 0x1_0000
  {
    var digits := if s != [] && s[0] == '+' then s[1..] else s;
    if digits == [] || !AllDigits(digits) then None
    else if DigitsValue(digits) < 0x1_0000 then Some(DigitsValue(digits))
    else None
  }

  lemma {:induction false} DigitsValueBound(s: string)
    requires AllDigits(s)
    ensures DigitsValue(s) < Pow10(|s|)
  {
    if s != [] {
      DigitsValueBound(s[..|s| - 1]);
    }
  }

  function Pow10(n: nat): (p: nat)
    ensures p >= 1
  {
    if n == 0 then 1 else 10 * Pow10(n - 1)
  }

  /** Four digits always parse, as a number below 10000. */
  lemma FourDigitsParse(s: string)
    requires |s| == 4 && AllDigits(s)
    ensures ParseU16(s).Some? && ParseU16(s).value < 10000 && ParseU16(s).value == DigitsValue(s)
  {
    DigitsValueBound(s);
    assert Pow10(4) == 10000;
  }

  /** `Code`. */
  class Code {
    var text: string

    /** At most four characters, all ASCII digits. */
    ghost predicate Valid()
      reads this
    {
      |text| <= 4 && AllDigits(text)
    }

    /** The join screen's `setup` starts with an empty code. */
    constructor ()
      ensures text == [] && Valid()
    {
      text := [];
    }

    /** `update_code`: the characters typed this frame, then the backspace key. */
    method UpdateCode(typed: seq<char>, back: bool)
      requires Valid()
      modifies this
      ensures Valid()
      ensures text == CodeAfter(old(text), typed, back)
    {
      ghost var start := text;
      var i := 0;
      while i < |typed|
        invariant 0 <= i <= |typed| && Valid()
        invariant text == Kept(start, typed[..i])
      {
        KeptStep(start, typed[..i], typed[i]);
        assert typed[..i + 1] == typed[..i] + [typed[i]];
        if |text| < 4 && IsDigit(typed[i]) {
          text := text + [typed[i]];
        }
        i := i + 1;
      }
      assert typed[..i] == typed;
      if back {
        if text != [] {
          text := text[..|text| - 1];
        }
      }
    }

    /** `update_code_display`: the code, then a space and an underscore per missing digit. */
    method Display() returns (shown: string)
      requires Valid()
      ensures |shown| == |text| + 2 * (4 - |text|)
      ensures shown[..|text|] == text
      ensures forall k :: |text| <= k < |shown| ==> shown[k] == (if (k - |text|) % 2 == 0 then ' ' else '_')
    {
      shown := text;
      var n := 0;
      while n < 4 - |text|
        invariant 0 <= n <= 4 - |text|
        invariant |shown| == |text| + 2 * n && shown[..|text|] == text
        invariant forall k :: |text| <= k < |shown| ==> shown[k] == (if (k - |text|) % 2 == 0 then ' ' else '_')
      {
        shown := shown + [' '] + ['_'];
        n := n + 1;
      }
    }

    /** `update_button_enabled`: the Join button is enabled exactly for a full code. */
    function JoinEnabled(): (enabled: bool)
      reads this
      ensures enabled <==> |text| == 4
    {
      |text| == 4
    }

    /** `handle_action` for a released mouse button: Back returns to the main menu; an
        enabled Join parses the code (`expect` cannot fail on four digits) and joins. */
    method HandleAction(action: ButtonAction, released: bool) returns (events: seq<UiEvent>)
      requires Valid()
      ensures action == BackToMain ==> events == (if released then [MainMenu] else [])
      ensures action == Join ==>
        events == (if released && |text| == 4 then [JoinRoom(DigitsValue(text))] else [])
      ensures forall k :: 0 <= k < |events| && events[k].JoinRoom? ==> events[k].code < 10000
    {
      events := [];
      var enabled := action == BackToMain || JoinEnabled();
      if enabled && released {
        match action {
          case BackToMain =>
            events := [MainMenu];
          case Join =>
            FourDigitsParse(text);
            var code := ParseU16(text);
            events := [JoinRoom(code.value)];
        }
      }
    }
  }

  datatype ButtonAction = BackToMain | Join

  /** The code never grows past four digits, holds only digits, and backspace on an
      empty code leaves it empty. */
  lemma CodeAfterBounded(code: string, typed: seq<char>, back: bool)
    requires |code| <= 4 && AllDigits(code)
    ensures |CodeAfter(code, typed, back)| <= 4 && AllDigits(CodeAfter(code, typed, back))
    ensures code == [] && TypedDigits(typed) == [] ==> CodeAfter(code, typed, back) == []
    ensures !back ==> code <= CodeAfter(code, typed, back)
  {
    var ds := TypedDigits(typed);
    var kept := Kept(code, typed);
    assert forall k :: 0 <= k < |kept| ==> IsDigit(kept[k]) by {
      forall k | 0 <= k < |kept|
        ensures IsDigit(kept[k])
      {
        if k >= |code| {
          assert kept[k] == ds[k - |code|];
        }
      }
    }
  }
}
