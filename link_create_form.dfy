/**
 * The dialog that creates a short link: its schema, the request it sends, and what it
 * shows and keeps after the request settles.
 */
module LinkCreateForm {
  import opened Types
  import Links
  import FormRules

  /** The form's fields: the alias may be absent, empty or typed. */
  datatype FormValues = FormValues(originalUrl: string, alias: Option<string>)

  const DefaultValues := FormValues("", Some(""))

  const CreatedMessage := "Link created successfully!"
  const CreateFailedMessage := "Failed to create link. Please try again."

  /** The alias rule of the schema: absent, or letters, digits, `-` and `_` (`*`), or the empty literal. */
  predicate AliasAccepted(alias: Option<string>): (b: bool)
    ensures b <==> alias.None? || forall i :: 0 <= i < |alias.value| ==> FormRules.IsAliasChar(alias.value[i])
  {
    alias.None? || FormRules.MatchesAliasPattern(alias.value, FormRules.ZeroOrMore) || alias.value == ""
  }

  /** `{ original_url, alias: data.alias || undefined }`: an empty alias is sent as absent. */
  function RequestOf(v: FormValues): (d: Links.CreateLinkData)
    ensures d.originalUrl == v.originalUrl
    ensures d.alias.Some? <==> Truthy(v.alias)
    ensures d.alias.Some? ==> d.alias == v.alias
  {
    Links.CreateLinkData(v.originalUrl, if Truthy(v.alias) then v.alias else None)
  }

  /** The characters of a generated alias all belong to the alias class. */
  lemma AlphabetIsAliasChars()
    ensures forall i :: 0 <= i < |Links.Alphabet| ==> FormRules.IsAliasChar(Links.Alphabet[i])
  {
    forall i | 0 <= i < |Links.Alphabet|
      ensures FormRules.IsAliasChar(Links.Alphabet[i])
    {
      if i < 26 {
        assert 'a' <= Links.Alphabet[i] <= 'z';
      } else {
        assert '0' <= Links.Alphabet[i] <= '9';
      }
    }
  }

  /**
   * Leaving the alias empty stores a generated one, typing one stores it as typed,
   * and either way the stored alias is one the form's own rule accepts.
   */
  lemma StoredAlias(v: FormValues, userId: string, draws: seq<int>)
    requires AliasAccepted(v.alias)
    ensures var stored := Links.NewLinkPayload(userId, RequestOf(v), Links.AliasFrom(draws)).alias;
      (Truthy(v.alias) ==> stored == v.alias.value) &&
      (!Truthy(v.alias) ==> stored == Links.AliasFrom(draws)) &&
      AliasAccepted(Some(stored))
  {
    var generated := Links.AliasFrom(draws);
    AlphabetIsAliasChars();
    forall i | 0 <= i < |generated|
      ensures FormRules.IsAliasChar(generated[i])
    {
      var k :| 0 <= k < |Links.Alphabet| && Links.Alphabet[k] == generated[i];
    }
  }

  class CreateFormState {
    var open: bool
    var isLoading: bool
    var values: FormValues
    var toasts: seq<Toast>

    constructor ()
      ensures !open && !isLoading && values == DefaultValues && toasts == []
    {
      open := false;
      isLoading := false;
      values := DefaultValues;
      toasts := [];
    }

    /** The dialog's `onOpenChange` is `setOpen`. */
    method OpenChange(o: bool)
      modifies this`open
      ensures open == o
    {
      open := o;
    }

    /**
     * `onSubmit`, called with values the schema accepted: on success the new link is
     * handed to `onSuccess`, the dialog closes and the fields reset; on failure the
     * dialog stays as it was and the error is shown as a toast.
     */
    method OnSubmit(store: Links.LinkStore, data: FormValues, draws: seq<int>, newId: string, now: Instant,
                    fault: Option<Thrown>)
      returns (created: Option<Link>)
      requires AliasAccepted(data.alias)
      requires store.Valid()
      requires Links.DefaultAliasLength <= |draws|
      requires !Links.HasId(store.rows, newId)
      modifies this`open, this`isLoading, this`values, this`toasts, store`rows
      ensures store.Valid() && !isLoading
      ensures store.user.Some? && fault.None? ==>
        var generated := Links.AliasFrom(draws[..Links.DefaultAliasLength]);
        var row := Links.InsertedRow(Links.NewLinkPayload(store.user.value, RequestOf(data), generated), newId, now);
        created == Some(row) && store.rows == old(store.rows) + [row] &&
        toasts == old(toasts) + [SuccessToast(CreatedMessage)] && !open && values == DefaultValues
      ensures !(store.user.Some? && fault.None?) ==>
        var thrown := if store.user.None? then Links.NotAuthenticated else fault.value;
        created == None && store.rows == old(store.rows) &&
        toasts == old(toasts) + [FormRules.SubmitErrorToast(thrown, CreateFailedMessage)] &&
        open == old(open) && values == old(values)
    {
      isLoading := true;
      var r := store.CreateLink(RequestOf(data), draws, newId, now, fault);
      match r {
        case Ok(newLink) =>
          toasts := toasts + [SuccessToast(CreatedMessage)];
          created := Some(newLink);
          open := false;
          values := DefaultValues;
        case Throws(thrown) =>
          toasts := toasts + [FormRules.SubmitErrorToast(thrown, CreateFailedMessage)];
          created := None;
      }
      isLoading := false;
    }
  }
}
