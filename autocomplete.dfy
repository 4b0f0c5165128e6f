/** The autocomplete engine: the static catalog of Luau completions, the
    case-insensitive prefix filter over it, the suggestion pop-up as a
    two-state machine, the clamped keyboard navigation, and the text edit that
    accepting a suggestion performs. */
module Autocomplete {
  import opened JsStrings
  import opened Words
  import opened Wrappers
  import opened Seqs

  /** Presentational category of a completion; it plays no part in filtering. */
  datatype Kind = Keyword | Function | Property | Variable | Method

  datatype Suggestion = Suggestion(name: string, value: string, description: Option<string>, kind: Kind)

  /** The catalog, in its source order. `type` and `typeof` occur twice, once
      as keywords and once as functions, so labels are not unique. */
  const Catalog: seq<Suggestion> :=
    [
      Suggestion("and", "and", None, Keyword),
      Suggestion("break", "break", None, Keyword),
      Suggestion("continue", "continue", None, Keyword),
      Suggestion("do", "do", None, Keyword),
      Suggestion("else", "else", None, Keyword),
      Suggestion("elseif", "elseif", None, Keyword),
      Suggestion("end", "end", None, Keyword),
      Suggestion("export", "export", None, Keyword),
      Suggestion("false", "false", None, Keyword),
      Suggestion("for", "for", None, Keyword),
      Suggestion("function", "function", None, Keyword),
      Suggestion("if", "if", None, Keyword),
      Suggestion("in", "in", None, Keyword),
      Suggestion("local", "local", None, Keyword),
      Suggestion("nil", "nil", None, Keyword),
      Suggestion("not", "not", None, Keyword),
      Suggestion("or", "or", None, Keyword),
      Suggestion("repeat", "repeat", None, Keyword),
      Suggestion("return", "return", None, Keyword),
      Suggestion("then", "then", None, Keyword),
      Suggestion("true", "true", None, Keyword),
      Suggestion("type", "type", None, Keyword),
      Suggestion("typeof", "typeof", None, Keyword),
      Suggestion("until", "until", None, Keyword),
      Suggestion("while", "while", None, Keyword),
      Suggestion("print", "print", Some("Prints values to the output"), Function),
      Suggestion("warn", "warn", Some("Prints a warning message"), Function),
      Suggestion("error", "error", Some("Raises an error with the given message"), Function),
      Suggestion("assert", "assert", Some("Raises an error if condition is false"), Function),
      Suggestion("tonumber", "tonumber", Some("Converts a value to a number"), Function),
      Suggestion("tostring", "tostring", Some("Converts a value to a string"), Function),
      Suggestion("type", "type", Some("Returns the type of a value"), Function),
      Suggestion("typeof", "typeof", Some("Returns the exact type of a value"), Function),
      Suggestion("pairs", "pairs", Some("Iterates over a table"), Function),
      Suggestion("ipairs", "ipairs", Some("Iterates over an array part of a table"), Function),
      Suggestion("next", "next", Some("Returns the next key-value pair in a table"), Function),
      Suggestion("unpack", "unpack", Some("Unpacks a table into individual values"), Function),
      Suggestion("rawget", "rawget", Some("Gets a value from a table without invoking metamethods"), Function),
      Suggestion("rawset", "rawset", Some("Sets a value in a table without invoking metamethods"), Function),
      Suggestion("rawequal", "rawequal", Some("Compares two values without invoking metamethods"), Function),
      Suggestion("collectgarbage", "collectgarbage", Some("Controls the garbage collector"), Function),
      Suggestion("task.wait", "task.wait", Some("Yields the current thread for the specified duration"), Function),
      Suggestion("task.spawn", "task.spawn", Some("Runs a function in a separate thread"), Function),
      Suggestion("task.delay", "task.delay", Some("Schedules a function to be called after a delay"), Function),
      Suggestion("Instance.new", "Instance.new", Some("Creates a new instance of the specified class"), Function),
      Suggestion("game", "game", Some("The game service"), Variable),
      Suggestion("workspace", "workspace", Some("The workspace service"), Variable),
      Suggestion("script", "script", Some("The current script instance"), Variable)
    ]

  /** The catalog holds 48 entries. The labels `type` and `typeof` occur
      twice each, once as a keyword and once as a global function, and the
      two records differ, so no entry is a copy of another of the same label. */
  lemma CatalogShape()
    ensures |Catalog| == 48
    ensures Catalog[21].name == Catalog[31].name == "type" && Catalog[21] != Catalog[31]
    ensures Catalog[22].name == Catalog[32].name == "typeof" && Catalog[22] != Catalog[32]
  {
  }

  /** At most this many candidates are offered. */
  const MaxSuggestions: nat := 10

  /** `suggestion.label.toLowerCase().startsWith(word.toLowerCase())`; the
      source field `label` is `name` here (`label` is a Dafny keyword). */
  predicate Matches(s: Suggestion, word: string) {
    StartsWith(ToLower(s.name), ToLower(word))
  }

  /** `items.filter(s => Matches(s, word))`. */
  function Filter(items: seq<Suggestion>, word: string): (r: seq<Suggestion>)
    ensures |r| <= |items|
    ensures forall x :: x in r ==> x in items && Matches(x, word)
  {
    if items == [] then []
    else (if Matches(items[0], word) then [items[0]] else []) + Filter(items[1..], word)
  }

  /** The filter leaves out no matching entry. */
  lemma {:induction false} FilterComplete(items: seq<Suggestion>, word: string, i: nat)
    requires i < |items| && Matches(items[i], word)
    ensures items[i] in Filter(items, word)
  {
    if i > 0 {
      FilterComplete(items[1..], word, i - 1);
    }
  }

  /** The filter keeps every matching record as often as it occurs in
      `items` and drops every other one: it is exact on repeated records. */
  lemma {:induction false} FilterCount(items: seq<Suggestion>, word: string)
    ensures forall x :: multiset(Filter(items, word))[x] == if Matches(x, word) then multiset(items)[x] else 0
  {
    if items != [] {
      FilterCount(items[1..], word);
      assert items == [items[0]] + items[1..];
      assert multiset(items) == multiset([items[0]]) + multiset(items[1..]);
    }
  }

  /** The filter keeps the order of `items`. */
  lemma {:induction false} FilterKeepsOrder(items: seq<Suggestion>, word: string)
    ensures IsSubsequence(Filter(items, word), items)
  {
    if items != [] {
      var rest := Filter(items[1..], word);
      FilterKeepsOrder(items[1..], word);
      if Matches(items[0], word) {
        assert Filter(items, word) == [items[0]] + rest;
        assert ([items[0]] + rest)[1..] == rest;
      } else {
        assert Filter(items, word) == rest;
        SubsequenceOfTail(rest, items);
      }
    }
  }

  /** The candidate list of `updateTabContent` for a non-empty word, drawn
      from the suggestion list `all` (the editor's is `Catalog`):
      `all.filter(...).slice(0, 10)`. */
  function Candidates(all: seq<Suggestion>, word: string): (r: seq<Suggestion>)
    ensures |r| <= MaxSuggestions
    ensures forall x :: x in r ==> x in all && Matches(x, word)
  {
    var found := Filter(all, word);
    found[..Min(MaxSuggestions, |found|)]
  }

  /** The candidates are the matching entries in list order, cut after the
      first ten: a subsequence of the list; the first ten of the full
      matching list; and, when at most ten entries match, every matching
      entry. */
  lemma CandidatesExact(all: seq<Suggestion>, word: string)
    ensures IsSubsequence(Candidates(all, word), all)
    ensures Candidates(all, word) == Filter(all, word)[..|Candidates(all, word)|]
    ensures |Candidates(all, word)| == Min(MaxSuggestions, |Filter(all, word)|)
    ensures |Filter(all, word)| <= MaxSuggestions ==>
      forall i :: 0 <= i < |all| && Matches(all[i], word) ==> all[i] in Candidates(all, word)
  {
    var found := Filter(all, word);
    FilterKeepsOrder(all, word);
    SubsequencePrefix(found, all, Min(MaxSuggestions, |found|));
    forall i | 0 <= i < |all| && Matches(all[i], word)
      ensures all[i] in found
    {
      FilterComplete(all, word, i);
    }
  }

  /** The suggestion pop-up: hidden, or shown with its candidates and the
      highlighted one. */
  datatype Popup = Hidden | Visible(items: seq<Suggestion>, selected: nat) {
    predicate Valid() {
      Visible? ==> 0 < |items| <= MaxSuggestions && selected < |items|
    }
  }

  /** The pop-up after a content change whose current word is `word`, with
      suggestion list `all`. */
  function PopupFor(all: seq<Suggestion>, word: string): (p: Popup)
    ensures p.Valid()
    ensures p.Visible? <==> |word| >= 1 && Filter(all, word) != []
    ensures p.Visible? ==> p.items == Candidates(all, word) && p.selected == 0
  {
    if |word| >= 1 && Candidates(all, word) != [] then Visible(Candidates(all, word), 0) else Hidden
  }

  /** The keys `handleKeyDown` distinguishes. */
  datatype Key = ArrowDown | ArrowUp | TabKey | Enter | Escape | OtherKey

  /** ArrowDown: one step down, staying on the last candidate. */
  function SelectNext(i: nat, n: nat): (r: nat)
    requires i < n
    ensures r < n
    ensures i < n - 1 ==> r == i + 1
    ensures r == i <==> i == n - 1
  {
    if i < n - 1 then i + 1 else i
  }

  /** ArrowUp: one step up, staying on the first candidate. */
  function SelectPrevious(i: nat): (r: nat)
    ensures r <= i
    ensures r < i ==> r == i - 1
    ensures r == i <==> i == 0
  {
    if i > 0 then i - 1 else 0
  }

  /** The highlight after a run of keys with the pop-up kept open: only the
      arrow keys move it, and it never leaves the list. (In `handleKeyDown`
      Tab, Enter and Escape close the pop-up, so such a run holds arrow keys
      and keys the pop-up ignores.) */
  function Navigate(i: nat, n: nat, keys: seq<Key>): (r: nat)
    requires i < n
    ensures r < n
    decreases |keys|
  {
    if keys == [] then i
    else if keys[0] == ArrowDown then Navigate(SelectNext(i, n), n, keys[1..])
    else if keys[0] == ArrowUp then Navigate(SelectPrevious(i), n, keys[1..])
    else Navigate(i, n, keys[1..])
  }

  /** At the last candidate, any number of further ArrowDown presses leave
      the highlight where it is; likewise ArrowUp at the first. */
  lemma {:induction false} RepeatAtBoundary(n: nat, k: nat)
    requires 0 < n
    ensures Navigate(n - 1, n, seq(k, _ => ArrowDown)) == n - 1
    ensures Navigate(0, n, seq(k, _ => ArrowUp)) == 0
  {
    if k > 0 {
      RepeatAtBoundary(n, k - 1);
      assert seq(k, _ => ArrowDown)[1..] == seq(k - 1, _ => ArrowDown);
      assert seq(k, _ => ArrowUp)[1..] == seq(k - 1, _ => ArrowUp);
    }
  }

  /** The content after `applySuggestion`: the text before the word's left
      end, the inserted value, then everything from the caret on. Only the
      part of the word left of the caret is replaced. */
  function Applied(text: string, cursor: nat, value: string): (r: string)
    ensures cursor <= |text| ==> r == text[..WordStart(text, cursor)] + value + text[cursor..]
    ensures cursor > |text| ==> r == text + value
  {
    Substring(text, 0, WordStart(text, cursor)) + value + Substring(text, cursor, |text|)
  }

  /** The caret `applySuggestion` places: right after the inserted value,
      with the text that followed the old caret starting there. */
  function AppliedCaret(text: string, cursor: nat, value: string): (c: nat)
    ensures |value| <= c
    ensures cursor <= |text| ==>
      c <= |Applied(text, cursor, value)| &&
      Applied(text, cursor, value)[c - |value|..c] == value &&
      Applied(text, cursor, value)[c..] == text[cursor..]
    ensures cursor > |text| ==> c == cursor + |value|
  {
    if cursor <= |text| then
      AppliedShape(text, cursor, value);
      WordStart(text, cursor) + |value|
    else
      WordStart(text, cursor) + |value|
  }

  /** Accepting keeps the text before the word, puts the value just before
      the new caret, and keeps the text after the old caret just after it;
      the replaced span consists of word characters only. */
  lemma AppliedShape(text: string, cursor: nat, value: string)
    requires cursor <= |text|
    ensures WordStart(text, cursor) + |value| <= |Applied(text, cursor, value)|
    ensures var r, s := Applied(text, cursor, value), WordStart(text, cursor);
      r[..s] == text[..s] && r[s..s + |value|] == value && r[s + |value|..] == text[cursor..]
    ensures |Applied(text, cursor, value)| == |text| - (cursor - WordStart(text, cursor)) + |value|
    ensures forall k :: WordStart(text, cursor) <= k < cursor ==> IsWordChar(text[k])
  {
    var s := WordStart(text, cursor);
    var r := Applied(text, cursor, value);
    assert r == text[..s] + value + text[cursor..];
    assert r[..s] == text[..s];
    assert r[s..s + |value|] == value;
    assert r[s + |value|..] == text[cursor..];
    forall k | s <= k < cursor
      ensures IsWordChar(text[k])
    {
      assert IsWordAt(text, k);
    }
  }

  /** When the caret ends the word, the replaced span is exactly the current
      word. */
  lemma AppliedAtWordEnd(text: string, cursor: nat, value: string)
    requires cursor <= |text| && !IsWordAt(text, cursor)
    ensures var s := WordStart(text, cursor);
      text[s..cursor] == CurrentWord(text, cursor) &&
      Applied(text, cursor, value) == text[..s] + value + text[WordEnd(text, cursor)..]
  {
    assert WordEnd(text, cursor) == cursor;
  }

  /** With the caret inside a word, the word's tail survives: accepting
      `print` at `pri|nt` yields `printnt`. */
  lemma AppliedKeepsWordTail()
    ensures CurrentWord("print", 3) == "print"
    ensures Applied("print", 3, "print") == "printnt"
  {
    assert WordStart("print", 3) == 0;
    assert WordEnd("print", 3) == 5;
  }
}
