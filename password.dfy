/**
 * `get_password`: the masked prompt that reads key codes into a password
 * until Enter or ESC.
 */
module Password {
  import opened Keys

  /** ncurses' `KEY_BACKSPACE` (octal 0407). */
  const KEY_BACKSPACE: int := 263

  predicate IsBackspace(ch: int) {
    ch == KEY_BACKSPACE || ch == 127 || ch == 8
  }

  /** Enter and ESC end the prompt. */
  predicate EndsPrompt(ch: int) {
    ch == ENTER || ch == ESC
  }

  /** `ch as u8`: the low byte of the code, in two's complement. */
  function LowByte(ch: int): (b: int)
    ensures 0 <= b < 256
  {
    ch % 256
  }

  /** `u8::is_ascii_control`, as `char::is_ascii_control` sees the byte. */
  predicate IsAsciiControl(b: int) {
    b < 32 || b == 127
  }

  /** The characters the prompt can accept: one byte, not an ASCII control. */
  predicate Typeable(c: char) {
    c as int < 256 && !IsAsciiControl(c as int)
  }

  /** The effect of one key other than Enter and ESC on the password typed so far. */
  function Edit(password: string, ch: int): string {
    if IsBackspace(ch) then (if password != "" then password[..|password| - 1] else password)
    else if !IsAsciiControl(LowByte(ch)) then password + [LowByte(ch) as char]
    else password
  }

  /** The password after a run of keys, none of them Enter or ESC. */
  function Typed(keys: seq<int>): string
    decreases |keys|
  {
    if keys == [] then "" else Edit(Typed(keys[..|keys| - 1]), keys[|keys| - 1])
  }

  /** The position of the first Enter or ESC, or `|keys|` if there is none. */
  function FirstEnd(keys: seq<int>): (t: nat)
    ensures t <= |keys|
    ensures forall k :: 0 <= k < t ==> !EndsPrompt(keys[k])
    ensures t < |keys| ==> EndsPrompt(keys[t])
    decreases |keys|
  {
    if keys == [] then 0
    else if EndsPrompt(keys[0]) then 0
    else 1 + FirstEnd(keys[1..])
  }

  /**
   * What the prompt returns, and how many codes it read; `Unfinished` when
   * the codes run out before Enter or ESC, where `get_password` keeps reading.
   */
  datatype Capture = Captured(password: string, used: nat) | Unfinished

  /** The outcome of the prompt on the codes `keys`. */
  function PasswordOf(keys: seq<int>): Capture {
    var t := FirstEnd(keys);
    if t == |keys| then Unfinished
    else if keys[t] == ENTER then Captured(Typed(keys[..t]), t + 1)
    else Captured("", t + 1)
  }

  /** `get_password`: push, pop and clear a string one key at a time. */
  method GetPassword(keys: seq<int>) returns (result: Capture)
    ensures result == PasswordOf(keys)
  {
    var password := "";
    var i := 0;
    while i < |keys|
      invariant 0 <= i <= |keys|
      invariant forall k :: 0 <= k < i ==> !EndsPrompt(keys[k])
      invariant password == Typed(keys[..i])
    {
      var ch := keys[i];
      if ch == ENTER {
        return Captured(password, i + 1);
      } else if ch == ESC {
        password := "";
        return Captured(password, i + 1);
      } else if IsBackspace(ch) {
        if password != "" {
          password := password[..|password| - 1];
        }
      } else if !IsAsciiControl(LowByte(ch)) {
        password := password + [LowByte(ch) as char];
      }
      assert keys[..i + 1][..i] == keys[..i];
      i := i + 1;
    }
    return Unfinished;
  }

  /** Enter returns what was typed before it. */
  lemma EnterReturnsTyped(typed: seq<int>, rest: seq<int>)
    requires forall k :: 0 <= k < |typed| ==> !EndsPrompt(typed[k])
    ensures PasswordOf(typed + [ENTER] + rest) == Captured(Typed(typed), |typed| + 1)
  {
    FirstEndAt(typed, ENTER, rest);
  }

  /** ESC discards what was typed and returns the empty password. */
  lemma EscapeClears(typed: seq<int>, rest: seq<int>)
    requires forall k :: 0 <= k < |typed| ==> !EndsPrompt(typed[k])
    ensures PasswordOf(typed + [ESC] + rest) == Captured("", |typed| + 1)
  {
    FirstEndAt(typed, ESC, rest);
  }

  lemma FirstEndAt(typed: seq<int>, e: int, rest: seq<int>)
    requires forall k :: 0 <= k < |typed| ==> !EndsPrompt(typed[k])
    requires EndsPrompt(e)
    ensures FirstEnd(typed + [e] + rest) == |typed|
    ensures (typed + [e] + rest)[..|typed|] == typed && (typed + [e] + rest)[|typed|] == e
  {
    var keys := typed + [e] + rest;
    assert keys[..|typed|] == typed;
    var t := FirstEnd(keys);
    assert keys[|typed|] == e;
  }

  /** Backspace removes the last character, and does nothing to an empty password. */
  lemma BackspacePops(keys: seq<int>, b: int)
    requires IsBackspace(b)
    ensures Typed(keys + [b]) == if Typed(keys) == "" then "" else Typed(keys)[..|Typed(keys)| - 1]
  {
    assert (keys + [b])[..|keys|] == keys;
  }

  /** A typed character followed by backspace leaves the password as it was. */
  lemma BackspaceUndoes(keys: seq<int>, c: char)
    requires Typeable(c)
    ensures Typed(keys + [c as int, 127]) == Typed(keys)
  {
    var k2 := keys + [c as int, 127];
    assert k2[..|k2| - 1] == keys + [c as int];
    assert (keys + [c as int])[..|keys|] == keys;
    assert LowByte(c as int) == c as int;
  }

  /** The password only ever holds one-byte characters that are not ASCII controls. */
  lemma {:induction false} TypedIsTypeable(keys: seq<int>)
    ensures forall k :: 0 <= k < |Typed(keys)| ==> Typeable(Typed(keys)[k])
    ensures |Typed(keys)| <= |keys|
    decreases |keys|
  {
    if keys != [] {
      TypedIsTypeable(keys[..|keys| - 1]);
    }
  }

  /** The codes sent by typing the characters of `s`. */
  function Codes(s: string): (r: seq<int>)
    ensures |r| == |s| && forall k :: 0 <= k < |s| ==> r[k] == s[k] as int
  {
    seq(|s|, k requires 0 <= k < |s| => s[k] as int)
  }

  /** Typing the characters of a password builds exactly that password. */
  lemma {:induction false} TypedCodes(s: string)
    requires forall k :: 0 <= k < |s| ==> Typeable(s[k])
    ensures Typed(Codes(s)) == s
    decreases |s|
  {
    if s != [] {
      var front := s[..|s| - 1];
      var c := s[|s| - 1];
      TypedCodes(front);
      assert Codes(s)[..|s| - 1] == Codes(front);
      assert Typed(Codes(s)) == Edit(Typed(Codes(front)), c as int);
      assert !IsBackspace(c as int) && LowByte(c as int) == c as int;
      assert front + [c] == s;
    }
  }

  /** Typing a password character by character and pressing Enter returns that password. */
  lemma TypeThenEnter(s: string, rest: seq<int>)
    requires forall k :: 0 <= k < |s| ==> Typeable(s[k])
    ensures PasswordOf(Codes(s) + [ENTER] + rest) == Captured(s, |s| + 1)
  {
    TypedCodes(s);
    var codes := Codes(s);
    assert forall k :: 0 <= k < |codes| ==> !EndsPrompt(codes[k]) by {
      forall k | 0 <= k < |codes| ensures !EndsPrompt(codes[k]) {
        assert Typeable(s[k]);
      }
    }
    EnterReturnsTyped(codes, rest);
  }

  /** One more key edits the password typed so far. */
  lemma TypedSnoc(keys: seq<int>, ch: int)
    ensures Typed(keys + [ch]) == Edit(Typed(keys), ch)
  {
    assert (keys + [ch])[..|keys|] == keys;
  }

  /** Typing `a`, `b`, backspace, `c` leaves `ac`. */
  lemma TypedExample()
    ensures Typed([97, 98, 127, 99]) == "ac"
  {
    TypedSnoc([], 97);
    assert [] + [97] == [97];
    assert Typed([97]) == "a";
    TypedSnoc([97], 98);
    assert [97] + [98] == [97, 98];
    assert Typed([97, 98]) == "ab";
    TypedSnoc([97, 98], 127);
    assert [97, 98] + [127] == [97, 98, 127];
    assert "ab"[..1] == "a";
    assert Typed([97, 98, 127]) == "a";
    TypedSnoc([97, 98, 127], 99);
    assert [97, 98, 127] + [99] == [97, 98, 127, 99];
  }

  /** `a`, `b`, backspace, `c`, Enter gives `ac`. */
  lemma BackspaceExample()
    ensures PasswordOf([97, 98, 127, 99, ENTER]) == Captured("ac", 5)
  {
    var keys := [97, 98, 127, 99];
    TypedExample();
    EnterReturnsTyped(keys, []);
    assert keys + [ENTER] + [] == [97, 98, 127, 99, ENTER];
  }

  /** `x`, ESC gives the empty password. */
  lemma EscapeExample()
    ensures PasswordOf([120, ESC]) == Captured("", 2)
  {
    EscapeClears([120], []);
    assert [120] + [ESC] + [] == [120, ESC];
  }

  /**
   * Only the low byte of a code counts: a function-key code 321 types `A`,
   * and a failed read (ERR) types U+00FF.
   */
  lemma LowByteQuirk()
    ensures Typed([321]) == "A"
    ensures Typed([ERR]) == "\U{FF}"
  {
    assert [321][..0] == [] && [ERR][..0] == [];
  }
}
