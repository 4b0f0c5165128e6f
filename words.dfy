/** The word detector: the identifier-like token (letters, digits, `_` and
    `.`) that touches the caret, found by scanning outward from it. */
module Words {
  import opened JsStrings

  /** `/[\w.]/` without the `u` flag: ASCII letters, digits, `_` and `.`. */
  predicate IsWordChar(c: char) {
    ('a' <= c <= 'z') || ('A' <= c <= 'Z') || ('0' <= c <= '9') || c == '_' || c == '.'
  }

  /** `/[\w.]/.test(text.charAt(i))`; `charAt` out of range gives `""`, which
      never matches. */
  predicate IsWordAt(text: string, i: int) {
    0 <= i < |text| && IsWordChar(text[i])
  }

  /** The left end of the word touching `p`: every character between it and
      `p` is a word character, and the one before it is not (or there is none). */
  function WordStart(text: string, p: nat): (s: nat)
    ensures s <= p
    ensures forall k :: s <= k < p ==> IsWordAt(text, k)
    ensures s == 0 || !IsWordAt(text, s - 1)
    decreases p
  {
    if p > 0 && IsWordAt(text, p - 1) then WordStart(text, p - 1) else p
  }

  /** The right end of the word touching `p`: every character from `p` up to
      it is a word character, and the one at it is not (or there is none). */
  function WordEnd(text: string, p: nat): (e: nat)
    ensures p <= e
    ensures p <= |text| ==> e <= |text|
    ensures p > |text| ==> e == p
    ensures forall k :: p <= k < e ==> IsWordAt(text, k)
    ensures !IsWordAt(text, e)
    decreases if p <= |text| then |text| - p else 0
  {
    if p < |text| && IsWordAt(text, p) then WordEnd(text, p + 1) else p
  }

  /** The value of `getCurrentWord(text, p)`: `text.substring(start, end)`. */
  function CurrentWord(text: string, p: nat): (w: string)
    ensures forall i :: 0 <= i < |w| ==> IsWordChar(w[i])
    ensures p <= |text| ==> w == text[WordStart(text, p)..WordEnd(text, p)]
    ensures p > |text| ==> w == ""
  {
    var s, e := WordStart(text, p), WordEnd(text, p);
    assert forall k :: s <= k < e ==> IsWordAt(text, k);
    var w := Substring(text, s, e);
    assert p <= |text| ==> forall i :: 0 <= i < |w| ==> w[i] == text[s + i] && IsWordAt(text, s + i);
    w
  }

  /** The word is empty exactly when neither neighbour of the caret is a word
      character. */
  lemma CurrentWordEmptyIff(text: string, p: nat)
    ensures CurrentWord(text, p) == "" <==> !IsWordAt(text, p - 1) && !IsWordAt(text, p)
  {
    if p <= |text| && IsWordAt(text, p) {
      assert WordEnd(text, p) > p;
    }
  }

  /** The span is the only maximal run of word characters around `p`: any
      `[s, e)` that contains `p`, holds only word characters and cannot be
      extended on either side is `[WordStart, WordEnd)`. */
  lemma {:induction false} MaximalSpanUnique(text: string, p: nat, s: nat, e: nat)
    requires s <= p <= e <= |text|
    requires forall k :: s <= k < e ==> IsWordAt(text, k)
    requires s == 0 || !IsWordAt(text, s - 1)
    requires !IsWordAt(text, e)
    ensures WordStart(text, p) == s && WordEnd(text, p) == e
  {
  }

  /** The left scan of `getCurrentWord` and of `applySuggestion`: step `start`
      back while the character before it is a word character. */
  method ScanWordStart(text: string, position: nat) returns (start: nat)
    ensures start == WordStart(text, position)
  {
    start := position;
    while start > 0 && IsWordAt(text, start - 1)
      invariant start <= position
      invariant WordStart(text, start) == WordStart(text, position)
    {
      start := start - 1;
    }
  }

  /** `getCurrentWord(text, position)`: scan left, then right, then cut. */
  method GetCurrentWord(text: string, position: nat) returns (word: string)
    ensures word == CurrentWord(text, position)
  {
    var start := ScanWordStart(text, position);
    var end := position;
    while end < |text| && IsWordAt(text, end)
      invariant position <= end
      invariant position <= |text| ==> end <= |text|
      invariant WordEnd(text, end) == WordEnd(text, position)
      decreases |text| - end
    {
      end := end + 1;
    }
    word := Substring(text, start, end);
  }

  /** The code's own values on `task.wait(1)`: `.` is a word character, so the
      word touching offsets 0, 4 and 9 is `task.wait`; between `(` and `1`
      it is `1`; after the last `)` it is empty. */
  lemma TaskWaitExamples()
    ensures CurrentWord("task.wait(1)", 0) == "task.wait"
    ensures CurrentWord("task.wait(1)", 4) == "task.wait"
    ensures CurrentWord("task.wait(1)", 9) == "task.wait"
    ensures CurrentWord("task.wait(1)", 10) == "1"
    ensures CurrentWord("task.wait(1)", 12) == ""
  {
    var t := "task.wait(1)";
    assert WordEnd(t, 0) == 9 && WordStart(t, 0) == 0;
    assert WordEnd(t, 4) == 9 && WordStart(t, 4) == 0;
    assert WordEnd(t, 9) == 9 && WordStart(t, 9) == 0;
    assert WordEnd(t, 10) == 11 && WordStart(t, 10) == 10;
  }
}
