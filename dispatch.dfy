/** The synchronous part of the two dispatch handlers, `handleExecute` and
    `inject`: the empty-script guard and the classification of a thrown value
    into the message shown under the editor. The request itself, its promise
    chain and the 10-second abort timer are not part of this model. */
module Dispatch {
  import opened JsStrings
  import opened Wrappers

  const EmptyCodeMessage: string := "Cannot execute empty code"
  const ExecutePrefix: string := "Execution failed: "
  const InjectPrefix: string := "Injection failed: "
  const NetworkMessage: string :=
    "Unable to connect to the server. Please check your network connection or try again later."
  const TimeoutMessage: string := "Request timed out. The server might be unavailable."
  /** The message of the `TypeError` a browser's `fetch` raises when the
      endpoint cannot be reached. */
  const FetchFailed: string := "Failed to fetch"
  /** The fixed `data` value `inject` sends. */
  const InjectPayload: string := "inject"

  /** A value thrown inside the handlers' `try`: a `TypeError`, another
      `Error` (with its `name`), `null`, `undefined`, or any other value that
      is not an `Error`, given by its `name` property when that is a string
      and by what `String(value)` makes of it. */
  datatype Thrown =
    | TypeError(message: string)
    | OtherError(name: string, message: string)
    | Null
    | Undefined
    | NotAnError(ownName: Option<string>, text: string)
  {
    /** `value.name`, where reading it succeeds and yields a string. */
    function Name(): Option<string> {
      match this
      case TypeError(_) => Some("TypeError")
      case OtherError(n, _) => Some(n)
      case Null => None
      case Undefined => None
      case NotAnError(n, _) => n
    }

    /** `null` and `undefined`, on which reading `.name` throws. */
    predicate Nullish() {
      Null? || Undefined?
    }

    /** `String(value)` for a value that is not an `Error`. */
    function Text(): string
      requires !TypeError? && !OtherError?
    {
      match this
      case Null => "null"
      case Undefined => "undefined"
      case NotAnError(_, s) => s
    }
  }

  /** The message of the `TypeError` a property read on a nullish value
      raises, in the wording of V8-based browsers. */
  function NameReadFailure(t: Thrown): string
    requires t.Nullish()
  {
    "Cannot read properties of " + t.Text() + " (reading 'name')"
  }

  /** The script is empty or white space only; by `TrimEmptyIffBlank` this
      is `!code.trim()`. */
  predicate IsBlank(code: string) {
    forall i :: 0 <= i < |code| ==> IsJsWhiteSpace(code[i])
  }

  /** The guard of `handleExecute`, `!code.trim()`: true exactly for a
      blank script. */
  function TrimsToEmpty(code: string): (b: bool)
    ensures b <==> IsBlank(code)
  {
    TrimEmptyIffBlank(code);
    Trim(code) == ""
  }

  /** The inner `catch`: reading `.name` of `null` or `undefined` throws a
      `TypeError` in its place; a value named `AbortError` (an `Error` or
      not) becomes an `Error` that says the request timed out; anything else
      is rethrown as it is. */
  function Rethrown(t: Thrown): (u: Thrown)
    ensures !u.Nullish()
    ensures t.Nullish() ==> u.TypeError? && u.message == NameReadFailure(t)
    ensures t.Name() == Some("AbortError") ==> u == OtherError("Error", TimeoutMessage)
    ensures !t.Nullish() && t.Name() != Some("AbortError") ==> u == t
  {
    if t.Nullish() then TypeError(NameReadFailure(t))
    else if t.Name() == Some("AbortError") then OtherError("Error", TimeoutMessage)
    else t
  }

  /** A value that has passed the inner `catch` passes it again unchanged:
      the rewriting leaves nothing it would rewrite once more. */
  lemma RethrownStable(t: Thrown)
    ensures Rethrown(Rethrown(t)) == Rethrown(t)
  {
  }

  /** The outer `catch`: the action's prefix, then the network message for a
      failed fetch, the `message` of any other `Error`, or `String(value)`. */
  function FailureMessage(prefix: string, t: Thrown): (m: string)
    ensures StartsWith(m, prefix)
    ensures t.TypeError? && t.message == FetchFailed ==> m[|prefix|..] == NetworkMessage
    ensures t.TypeError? && t.message != FetchFailed ==> m[|prefix|..] == t.message
    ensures t.OtherError? ==> m[|prefix|..] == t.message
    ensures !t.TypeError? && !t.OtherError? ==> m[|prefix|..] == t.Text()
  {
    var detail :=
      if t.TypeError? && t.message == FetchFailed then NetworkMessage
      else if t.TypeError? || t.OtherError? then t.message
      else t.Text();
    assert (prefix + detail)[..|prefix|] == prefix;
    prefix + detail
  }

  /** An aborted request is reported as a time-out, whatever the abort's own
      message was and whether or not the thrown value is an `Error`, and
      apart from the network failure, whose message differs. */
  lemma AbortReportsTimeout(prefix: string, message: string, text: string)
    ensures FailureMessage(prefix, Rethrown(OtherError("AbortError", message))) == prefix + TimeoutMessage
    ensures FailureMessage(prefix, Rethrown(NotAnError(Some("AbortError"), text))) == prefix + TimeoutMessage
    ensures FailureMessage(prefix, Rethrown(TypeError(FetchFailed))) == prefix + NetworkMessage
    ensures prefix + TimeoutMessage != prefix + NetworkMessage
  {
    assert |prefix + TimeoutMessage| != |prefix + NetworkMessage|;
  }

  /** A thrown `null` is reported through the `TypeError` that reading its
      `.name` raises, not as the text `null`. */
  lemma NullReportsNameRead(prefix: string)
    ensures FailureMessage(prefix, Rethrown(Null)) == prefix + "Cannot read properties of null (reading 'name')"
    ensures FailureMessage(prefix, Rethrown(Null)) != prefix + Null.Text()
  {
    var message := NameReadFailure(Null);
    assert message == "Cannot read properties of null (reading 'name')";
    assert |message| != |FetchFailed| && message != FetchFailed;
    assert Rethrown(Null) == TypeError(message);
    assert FailureMessage(prefix, TypeError(message)) == prefix + message;
    assert |prefix + message| != |prefix + Null.Text()|;
  }
}
