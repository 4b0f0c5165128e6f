/** The integer part of the cursor locator: the caret's line and column,
    the pop-up's vertical anchor, and the gutter's line count. The pixel
    width of the text left of the caret comes from an off-screen DOM
    measurement and is not part of this model. */
module Geometry {
  import opened JsStrings

  /** Approximate rendered line height in pixels. */
  const LineHeight: nat := 24
  /** Padding added to both anchor coordinates. */
  const Padding: nat := 8

  /** The number of `\n` characters in `s` (`s.match(/\n/g)`'s length). */
  function CountNewlines(s: string): nat {
    if s == [] then 0 else (if s[0] == '\n' then 1 else 0) + CountNewlines(s[1..])
  }

  /** `s.split("\n")`. */
  function SplitLines(s: string): (r: seq<string>)
    ensures |r| >= 1
    ensures forall i :: 0 <= i < |r| ==> '\n' !in r[i]
  {
    if s == [] then [""]
    else
      var rest := SplitLines(s[1..]);
      if s[0] == '\n' then [""] + rest else [[s[0]] + rest[0]] + rest[1..]
  }

  /** `lines.join("\n")`. */
  function JoinLines(lines: seq<string>): string
    requires |lines| >= 1
  {
    if |lines| == 1 then lines[0] else lines[0] + "\n" + JoinLines(lines[1..])
  }

  /** Splitting at line breaks loses nothing: joining the pieces back gives
      the text. */
  lemma {:induction false} JoinSplitLines(s: string)
    ensures JoinLines(SplitLines(s)) == s
  {
    if s != [] {
      var rest := SplitLines(s[1..]);
      JoinSplitLines(s[1..]);
      if s[0] == '\n' {
        assert ([""] + rest)[1..] == rest;
        assert s == "\n" + s[1..];
      } else {
        var r := [[s[0]] + rest[0]] + rest[1..];
        assert r[1..] == rest[1..];
        if |rest| == 1 {
          assert s == [s[0]] + s[1..];
        } else {
          assert JoinLines(rest) == rest[0] + "\n" + JoinLines(rest[1..]);
          assert s == [s[0]] + s[1..];
        }
      }
    }
  }

  /** There is one more piece than there are line breaks. */
  lemma {:induction false} SplitLinesCount(s: string)
    ensures |SplitLines(s)| == CountNewlines(s) + 1
  {
    if s != [] {
      SplitLinesCount(s[1..]);
    }
  }

  /** The last piece is what follows the last line break (or the whole text
      when there is none). */
  lemma {:induction false} LastLineIsTail(s: string)
    ensures var lines := SplitLines(s); var last := lines[|lines| - 1];
      |last| <= |s| && last == s[|s| - |last|..] &&
      (|lines| == 1 <==> |last| == |s|) &&
      (|last| < |s| ==> s[|s| - |last| - 1] == '\n')
  {
    if s != [] {
      LastLineIsTail(s[1..]);
      var rest := SplitLines(s[1..]);
      var lines := SplitLines(s);
      if s[0] == '\n' {
        assert lines == [""] + rest;
      } else {
        assert lines == [[s[0]] + rest[0]] + rest[1..];
        if |rest| == 1 {
          assert s == [s[0]] + s[1..];
        } else {
          assert lines[|lines| - 1] == rest[|rest| - 1];
        }
      }
    }
  }

  /** A zero-based line and column. */
  datatype Location = Location(line: nat, column: nat)

  /** `calculateCursorPosition`'s line and column: the text before the caret
      split at line breaks; the number of pieces less one, and the length of
      the last piece. */
  function CaretLocation(text: string, caret: nat): (loc: Location)
    ensures var before := Substring(text, 0, caret);
      loc.line == CountNewlines(before) &&
      loc.column <= |before| &&
      (forall k :: |before| - loc.column <= k < |before| ==> before[k] != '\n') &&
      (loc.column == |before| || before[|before| - loc.column - 1] == '\n')
  {
    var before := Substring(text, 0, caret);
    var lines := SplitLines(before);
    SplitLinesCount(before);
    LastLineIsTail(before);
    var last := lines[|lines| - 1];
    assert forall k :: |before| - |last| <= k < |before| ==> before[k] == last[k - (|before| - |last|)];
    Location(|lines| - 1, |last|)
  }

  /** The pop-up's `top`: below the caret's line, plus padding. */
  function AnchorTop(text: string, caret: nat): (top: nat)
    ensures top == CountNewlines(Substring(text, 0, caret)) * LineHeight + LineHeight + Padding
  {
    (CaretLocation(text, caret).line + 1) * LineHeight + Padding
  }

  /** The gutter's line count for `content`: one more than its line breaks,
      which is the number of lines the text splits into. */
  function LineCount(content: string): (r: nat)
    ensures r >= 1
    ensures r == |SplitLines(content)|
  {
    SplitLinesCount(content);
    CountNewlines(content) + 1
  }

  /** Line breaks in a prefix are at most those in the whole text. */
  lemma {:induction false} CountNewlinesPrefix(s: string, k: nat)
    requires k <= |s|
    ensures CountNewlines(s[..k]) <= CountNewlines(s)
  {
    if k > 0 {
      CountNewlinesPrefix(s[1..], k - 1);
      assert s[..k][1..] == s[1..][..k - 1];
    }
  }

  /** Every caret sits on a line the gutter shows, and a caret at the end of
      the text sits on the last one. */
  lemma CaretWithinLineCount(text: string, caret: nat)
    ensures CaretLocation(text, caret).line < LineCount(text)
    ensures caret >= |text| ==> CaretLocation(text, caret).line == LineCount(text) - 1
  {
    if caret <= |text| {
      CountNewlinesPrefix(text, caret);
    } else {
      assert Substring(text, 0, caret) == text[..|text|];
    }
    assert text[..|text|] == text;
  }
}
