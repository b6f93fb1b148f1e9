/** internal/shell/quote.go: rendering a value as one shell word, and the check
    that keeps a value fit for a one-line command. A Dafny `string` is a sequence
    of Unicode scalar values, so the UTF-8 check of the source always passes. */
module ShellQuote {

  /** What an embedded single quote becomes: close, a quoted quote, reopen. */
  const ESCAPED_QUOTE := "'\"'\"'"

  function ReplaceQuotes(value: string): string {
    if value == [] then []
    else (if value[0] == '\'' then ESCAPED_QUOTE else [value[0]]) + ReplaceQuotes(value[1..])
  }

  function Quote(value: string): string {
    if value == "" then "''" else "'" + ReplaceQuotes(value) + "'"
  }

  predicate NotPlainYaml(c: char) {
    if c == '\t' then false
    else if c < ' ' then true
    else if '\U{7f}' <= c <= '\U{9f}' then true
    else c in {'\U{2028}', '\U{2029}', '\U{fffe}', '\U{ffff}'}
  }

  predicate SingleLine(value: string) {
    forall i :: 0 <= i < |value| ==> !NotPlainYaml(value[i])
  }

  lemma {:induction false} QuoteOfPlainText(value: string)
    requires value != "" && forall i :: 0 <= i < |value| ==> value[i] != '\''
    ensures Quote(value) == "'" + value + "'"
  {
    ReplaceNothing(value);
  }

  lemma {:induction false} ReplaceNothing(value: string)
    requires forall i :: 0 <= i < |value| ==> value[i] != '\''
    ensures ReplaceQuotes(value) == value
  {
    if value != [] {
      ReplaceNothing(value[1..]);
    }
  }

  /** A value that passed the check adds no line break to the command it is quoted into. */
  lemma {:induction false} QuoteKeepsSingleLine(value: string)
    requires SingleLine(value)
    ensures SingleLine(Quote(value))
  {
    ReplaceKeepsSingleLine(value);
  }

  lemma {:induction false} ReplaceKeepsSingleLine(value: string)
    requires SingleLine(value)
    ensures SingleLine(ReplaceQuotes(value))
  {
    if value != [] {
      ReplaceKeepsSingleLine(value[1..]);
    }
  }
}
