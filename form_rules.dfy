/**
 * Rules the two link forms share: the alias pattern of their schemas, and the way a
 * failed submission is turned into the error toast the user sees.
 */
module FormRules {
  import opened Types

  // ---------------------------------------------------------------------------
  // The alias pattern

  /** The character class `[a-zA-Z0-9-_]`: letters, digits, the hyphen and the underscore. */
  predicate IsAliasChar(c: char)
  {
    ('a' <= c <= 'z') || ('A' <= c <= 'Z') || ('0' <= c <= '9') || c == '-' || c == '_'
  }

  /** The message both link forms attach to an alias outside the pattern. */
  const AliasCharsMessage := "Only letters, numbers, hyphens, and underscores allowed"

  /** The create form repeats the class with `*`, the edit form with `+`. */
  datatype Repeat = ZeroOrMore | OneOrMore

  /**
   * `/^[a-zA-Z0-9-_]*$/` and `/^[a-zA-Z0-9-_]+$/`, matched from the left: the whole
   * input must be made of the class, and `+` needs at least one character.
   */
  function MatchesAliasPattern(s: string, rep: Repeat): (b: bool)
    ensures b <==> (rep == OneOrMore ==> s != []) && forall i :: 0 <= i < |s| ==> IsAliasChar(s[i])
  {
    if s == [] then rep == ZeroOrMore
    else IsAliasChar(s[0]) && MatchesAliasPattern(s[1..], ZeroOrMore)
  }

  /** `+` accepts exactly the non-empty inputs that `*` accepts. */
  lemma OneOrMoreIsNonEmptyZeroOrMore(s: string)
    ensures MatchesAliasPattern(s, OneOrMore) <==> s != [] && MatchesAliasPattern(s, ZeroOrMore)
  {
  }

  // ---------------------------------------------------------------------------
  // String.prototype.includes

  /** `sub` occurs in `s` starting at position `k`. */
  predicate OccursAt(s: string, sub: string, k: int)
  {
    0 <= k <= |s| - |sub| && s[k..k + |sub|] == sub
  }

  /** `s.includes(sub)`: some position of `s` starts a copy of `sub`. */
  predicate Includes(s: string, sub: string)
  {
    exists k :: 0 <= k <= |s| - |sub| && OccursAt(s, sub, k)
  }

  /** Every text includes the empty string, and a text includes its own prefixes. */
  lemma IncludesPrefix(s: string, prefix: string, rest: string)
    requires s == prefix + rest
    ensures Includes(s, prefix) && Includes(s, "")
  {
    assert OccursAt(s, prefix, 0);
    assert OccursAt(s, "", 0);
  }

  /** A text that lacks one of the characters of `sub` does not include `sub`. */
  lemma MissingCharNotIncluded(s: string, sub: string, c: char)
    requires c in sub && c !in s
    ensures !Includes(s, sub)
  {
  }

  // ---------------------------------------------------------------------------
  // Submission errors

  const AliasTakenMessage := "This alias is already taken. Please choose another."

  /** The words the forms take to mean that the alias broke the table's uniqueness constraint. */
  predicate ReadsAsDuplicate(message: string)
  {
    Includes(message, "duplicate") || Includes(message, "unique")
  }

  /**
   * The `catch` of both link forms: an `Error` whose message reads as a uniqueness
   * violation shows the alias-taken text, any other `Error` shows its own message,
   * and a thrown non-`Error` shows the form's fallback text.
   */
  function SubmitErrorToast(t: Thrown, fallback: string): (toast: Toast)
    ensures toast.ErrorToast?
    ensures t.NonErrorValue? ==> toast.text == fallback
    ensures t.ErrorValue? && ReadsAsDuplicate(t.message) ==> toast == ErrorToast(AliasTakenMessage)
    ensures t.ErrorValue? && !ReadsAsDuplicate(t.message) ==> toast == ErrorToast(t.message)
  {
    match t
    case ErrorValue(message) =>
      if ReadsAsDuplicate(message) then ErrorToast(AliasTakenMessage) else ErrorToast(message)
    case NonErrorValue => ErrorToast(fallback)
  }

  /** The message the table's unique index on `alias` rejects a duplicate insert or update with. */
  function UniqueViolation(constraint: string): string
  {
    "duplicate" + " key value violates unique constraint \"" + constraint + "\""
  }

  /** A duplicate alias rejected by the table reaches the user as the alias-taken text. */
  lemma UniqueViolationReadsAsTaken(constraint: string, fallback: string)
    ensures SubmitErrorToast(ErrorValue(UniqueViolation(constraint)), fallback) == ErrorToast(AliasTakenMessage)
  {
    var rest := " key value violates unique constraint \"" + constraint + "\"";
    IncludesPrefix(UniqueViolation(constraint), "duplicate", rest);
  }

  /** Any `Error` that mentions either word, wherever it occurs, shows the alias-taken text. */
  lemma DuplicateOrUniqueReadsAsTaken(message: string, fallback: string)
    requires Includes(message, "duplicate") || Includes(message, "unique")
    ensures SubmitErrorToast(ErrorValue(message), fallback) == ErrorToast(AliasTakenMessage)
  {
  }

  /** Creating a link while signed out shows the data layer's own message, word for word. */
  lemma NotAuthenticatedShownVerbatim(fallback: string)
    ensures SubmitErrorToast(ErrorValue("User not authenticated"), fallback) == ErrorToast("User not authenticated")
  {
    var m := "User not authenticated";
    assert 'p' in "duplicate" && 'p' !in m;
    MissingCharNotIncluded(m, "duplicate", 'p');
    assert 'q' in "unique" && 'q' !in m;
    MissingCharNotIncluded(m, "unique", 'q');
  }

  /** Any `Error` whose message mentions neither word is shown as it is. */
  lemma OtherErrorsShownVerbatim(message: string, fallback: string)
    requires !Includes(message, "duplicate") && !Includes(message, "unique")
    ensures SubmitErrorToast(ErrorValue(message), fallback) == ErrorToast(message)
  {
  }
}
