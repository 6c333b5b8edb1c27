/**
 * `get_input`: one logical key read from the terminal, where ESC starts an
 * escape sequence whose continuation is picked up by non-blocking reads.
 */
module Keys {

  /** What `wgetch` returns when no key is available. */
  const ERR: int := -1
  const ESC: int := 27
  /** Enter, as the terminal sends it. */
  const ENTER: int := 13
  /** `[`, the second byte of a CSI sequence such as an arrow key. */
  const CSI: int := 91

  /**
   * The codes the successive `wgetch` calls return: the `i`-th call returns
   * `keys[i]` (which may itself be ERR, for a non-blocking read that found
   * nothing yet), and every call past the end returns ERR.
   */
  function KeyAt(keys: seq<int>, i: nat): int {
    if i < |keys| then keys[i] else ERR
  }

  /** The code `get_input` returns and the position of the next unread code. */
  datatype Decoded = Decoded(code: int, next: nat)

  /**
   * `get_input` starting at position `pos`. It reads between one and three
   * codes and reports ERR exactly when the first, blocking, read did.
   */
  function Decode(keys: seq<int>, pos: nat): (d: Decoded)
    ensures pos < d.next <= pos + 3
    ensures d.code == ERR <==> KeyAt(keys, pos) == ERR
    ensures pos >= |keys| ==> d.code == ERR
  {
    var first := KeyAt(keys, pos);
    if first == ERR then Decoded(ERR, pos + 1)
    else if first != ESC then Decoded(first, pos + 1)
    else
      var second := KeyAt(keys, pos + 1);
      if second == ERR then Decoded(ESC, pos + 2)
      else if second != CSI then Decoded(second, pos + 2)
      else
        var third := KeyAt(keys, pos + 2);
        if third != ERR then Decoded(third, pos + 3) else Decoded(ESC, pos + 3)
  }

  /** `get_input`, reading the codes one `wgetch` at a time. */
  method GetInput(keys: seq<int>, pos: nat) returns (input: int, next: nat)
    ensures Decoded(input, next) == Decode(keys, pos)
  {
    next := pos;
    input := KeyAt(keys, next);
    next := next + 1;
    if input == ERR {
      return;
    }
    if input == ESC {
      input := KeyAt(keys, next);
      next := next + 1;
      if input == ERR {
        input := ESC;
        return;
      }
      if input != CSI {
        return;
      }
      input := KeyAt(keys, next);
      next := next + 1;
      if input != ERR {
        return;
      }
      input := ESC;
    }
  }

  /** What the user pressed, as the terminal sends it. */
  datatype KeyPress =
    | Plain(c: int)   // a key sent as one code
    | Escape          // ESC on its own: nothing follows before the next read
    | Alt(c: int)     // ESC followed by one code
    | Csi(c: int)     // ESC [ followed by one code, as arrow keys are sent

  /** Key presses the terminal can actually send this way. */
  predicate Sendable(k: KeyPress) {
    match k
    case Plain(c) => c != ERR && c != ESC
    case Escape => true
    case Alt(c) => c != ERR && c != CSI
    case Csi(c) => c != ERR
  }

  /** The codes successive reads see for `k`. */
  function Sequence(k: KeyPress): seq<int> {
    match k
    case Plain(c) => [c]
    case Escape => [ESC, ERR]
    case Alt(c) => [ESC, c]
    case Csi(c) => [ESC, CSI, c]
  }

  /** The code `get_input` should report for `k`. */
  function Intended(k: KeyPress): int {
    match k
    case Escape => ESC
    case Plain(c) => c
    case Alt(c) => c
    case Csi(c) => c
  }

  /** One call reads the whole sequence of a key press, and nothing more. */
  lemma DecodeKeyPress(pre: seq<int>, k: KeyPress, rest: seq<int>)
    requires Sendable(k)
    ensures Decode(pre + Sequence(k) + rest, |pre|) == Decoded(Intended(k), |pre| + |Sequence(k)|)
  {
    var keys := pre + Sequence(k) + rest;
    var s := Sequence(k);
    forall i | 0 <= i < |s| ensures KeyAt(keys, |pre| + i) == s[i] {
      assert keys[|pre| + i] == s[i];
    }
  }

  /** The codes a run of key presses sends. */
  function Flatten(ks: seq<KeyPress>): seq<int>
    decreases |ks|
  {
    if ks == [] then [] else Flatten(ks[..|ks| - 1]) + Sequence(ks[|ks| - 1])
  }

  lemma {:induction false} FlattenConcat(a: seq<KeyPress>, b: seq<KeyPress>)
    ensures Flatten(a + b) == Flatten(a) + Flatten(b)
    decreases |b|
  {
    if b == [] {
      assert a + b == a;
    } else {
      var front, last := b[..|b| - 1], b[|b| - 1];
      assert (a + b)[..|a + b| - 1] == a + front;
      assert (a + b)[|a + b| - 1] == last;
      assert Flatten(a + b) == Flatten(a + front) + Sequence(last);
      FlattenConcat(a, front);
      assert Flatten(b) == Flatten(front) + Sequence(last);
      assert Flatten(a) + Flatten(front) + Sequence(last) == Flatten(a) + (Flatten(front) + Sequence(last));
    }
  }

  /**
   * Reading key presses one call at a time: the `i`-th call starts where the
   * `i`-th press starts and returns its code, so no escape sequence is split
   * across two calls.
   */
  lemma DecodeStream(ks: seq<KeyPress>, i: nat)
    requires forall j :: 0 <= j < |ks| ==> Sendable(ks[j])
    requires i < |ks|
    ensures Decode(Flatten(ks), |Flatten(ks[..i])|) == Decoded(Intended(ks[i]), |Flatten(ks[..i + 1])|)
  {
    assert ks == ks[..i] + [ks[i]] + ks[i + 1..];
    assert ks[..i + 1] == ks[..i] + [ks[i]];
    FlattenConcat(ks[..i] + [ks[i]], ks[i + 1..]);
    FlattenConcat(ks[..i], [ks[i]]);
    assert Flatten([ks[i]]) == Sequence(ks[i]) by {
      assert [ks[i]][..0] == [];
    }
    DecodeKeyPress(Flatten(ks[..i]), ks[i], Flatten(ks[i + 1..]));
  }

  /** A plain `A`/`B` and the Up/Down arrow keys (ESC [ A, ESC [ B) decode to the same code. */
  lemma ArrowsLookLikeLetters(c: int, rest: seq<int>)
    requires c != ERR && c != ESC
    ensures Decode([c] + rest, 0).code == Decode([ESC, CSI, c] + rest, 0).code == c
  {
    DecodeKeyPress([], Plain(c), rest);
    DecodeKeyPress([], Csi(c), rest);
    assert [] + Sequence(Plain(c)) + rest == [c] + rest;
    assert [] + Sequence(Csi(c)) + rest == [ESC, CSI, c] + rest;
  }

  /** ESC [ with nothing after it reads as ESC. */
  lemma UnfinishedCsi(rest: seq<int>)
    ensures Decode([ESC, CSI, ERR] + rest, 0) == Decoded(ESC, 3)
  {
    var keys := [ESC, CSI, ERR] + rest;
    assert keys[0] == ESC && keys[1] == CSI && keys[2] == ERR;
  }
}
