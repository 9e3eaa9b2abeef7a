/** `formatAuthError`: one line describing an authentication error. */
module AuthError {

  import opened Common
  import opened JsText

  const Separator := " | "

  /**
   * The fields of a thrown error the formatter looks at: `message` and `code`
   * when they are strings, `status` when it is a number.
   */
  datatype LooseError = LooseError(message: Option<string>, status: Option<int>, code: Option<string>)

  /** `parts.join(sep)` */
  function Join(parts: seq<string>, sep: string): string {
    if parts == [] then ""
    else if |parts| == 1 then parts[0]
    else parts[0] + sep + Join(parts[1..], sep)
  }

  /** Joining one more part adds the separator and the part at the end. */
  lemma {:induction false} JoinAppend(parts: seq<string>, x: string, sep: string)
    requires parts != []
    ensures Join(parts + [x], sep) == Join(parts, sep) + sep + x
  {
    if |parts| == 1 {
      assert parts + [x] == [parts[0], x];
    } else {
      assert (parts + [x])[1..] == parts[1..] + [x];
      JoinAppend(parts[1..], x, sep);
    }
  }

  /** `(input || {})`: a missing (falsy) input reads as an error with no fields. */
  function Fields(input: Option<LooseError>): LooseError {
    if input.Some? then input.value else LooseError(None, None, None)
  }

  /** `err.message || fallback` */
  function MessageOf(input: Option<LooseError>, fallback: string): (r: string)
    ensures Fields(input).message.Some? && Fields(input).message.value != "" ==> r == Fields(input).message.value
    ensures Fields(input).message.None? || Fields(input).message == Some("") ==> r == fallback
  {
    var m := Fields(input).message;
    if m.Some? && m.value != "" then m.value else fallback
  }

  /** The message, then ` | status=<n>` when there is a status, then ` | code=<c>` when there is a code. */
  function Formatted(input: Option<LooseError>, fallback: string): string {
    var err := Fields(input);
    MessageOf(input, fallback)
    + (if err.status.Some? then Separator + "status=" + IntToString(err.status.value) else "")
    + (if err.code.Some? && err.code.value != "" then Separator + "code=" + err.code.value else "")
  }

  /** `formatAuthError(input, fallback)`: the parts are collected with `push`, then joined. */
  method FormatAuthError(input: Option<LooseError>, fallback: string) returns (r: string)
    ensures r == Formatted(input, fallback)
  {
    var err := Fields(input);
    var message := MessageOf(input, fallback);
    var parts := [message];
    if err.status.Some? {
      JoinAppend(parts, "status=" + IntToString(err.status.value), Separator);
      parts := parts + ["status=" + IntToString(err.status.value)];
    }
    if err.code.Some? && err.code.value != "" {
      JoinAppend(parts, "code=" + err.code.value, Separator);
      parts := parts + ["code=" + err.code.value];
    }
    r := Join(parts, Separator);
  }

  /** The text starts with the message, or with the fallback when the message is missing or empty. */
  lemma FormattedStartsWithMessage(input: Option<LooseError>, fallback: string)
    ensures var m := MessageOf(input, fallback);
      |m| <= |Formatted(input, fallback)| && Formatted(input, fallback)[..|m|] == m
    ensures Fields(input).message.None? || Fields(input).message == Some("") ==> MessageOf(input, fallback) == fallback
  {
  }

  /** No input at all gives exactly the fallback. */
  lemma FormattedWithoutInput(fallback: string)
    ensures Formatted(None, fallback) == fallback
  {
  }

  /** Only the message: with no status and no code nothing is appended. */
  lemma FormattedMessageOnly(e: LooseError, fallback: string)
    requires e.status.None? && (e.code.None? || e.code == Some(""))
    ensures Formatted(Some(e), fallback) == MessageOf(Some(e), fallback)
  {
  }

  /** With a status and a code, both follow the message in that order, separated by ' | '. */
  lemma FormattedAll(message: string, status: int, code: string)
    requires message != "" && code != ""
    ensures Formatted(Some(LooseError(Some(message), Some(status), Some(code))), "")
         == message + " | status=" + IntToString(status) + " | code=" + code
  {
  }
}
