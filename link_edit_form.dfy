/**
 * The dialog that edits a short link: its schema, the request it sends for the link it
 * was opened on, and the reset that runs when that link changes.
 */
module LinkEditForm {
  import opened Types
  import Links
  import FormRules
  import LinkCreateForm

  /** The form's fields: both are always sent. */
  datatype FormValues = FormValues(originalUrl: string, alias: string)

  /** The fields as they are filled from a link, at first render and on every reset. */
  function ValuesOf(link: Link): (v: FormValues)
    ensures v.originalUrl == link.originalUrl && v.alias == link.alias
    ensures RequestOf(v) == Links.UpdateLinkData(Some(link.originalUrl), Some(link.alias))
  {
    FormValues(link.originalUrl, link.alias)
  }

  const AliasRequiredMessage := "Alias is required"
  const UpdatedMessage := "Link updated successfully!"
  const UpdateFailedMessage := "Failed to update link. Please try again."

  /**
   * The alias checks in the order the schema lists them, `.min(1)` then the `+`
   * pattern, each adding its message when it fails; the form shows the first one.
   */
  function AliasIssues(alias: string): (issues: seq<string>)
    ensures issues == [] <==> FormRules.MatchesAliasPattern(alias, FormRules.OneOrMore)
    ensures alias == "" ==> issues == [AliasRequiredMessage, FormRules.AliasCharsMessage]
    ensures alias != "" ==> forall k :: 0 <= k < |issues| ==> issues[k] == FormRules.AliasCharsMessage
  {
    (if |alias| < 1 then [AliasRequiredMessage] else []) +
    (if FormRules.MatchesAliasPattern(alias, FormRules.OneOrMore) then [] else [FormRules.AliasCharsMessage])
  }

  predicate AliasAccepted(alias: string): (b: bool)
    ensures b <==> alias != [] && forall i :: 0 <= i < |alias| ==> FormRules.IsAliasChar(alias[i])
  {
    AliasIssues(alias) == []
  }

  /** The edit rule is the create rule without the blank alias that the create form fills in itself. */
  lemma EditRuleIsCreateRuleWithoutBlank(alias: string)
    ensures AliasAccepted(alias) <==> alias != "" && LinkCreateForm.AliasAccepted(Some(alias))
  {
    FormRules.OneOrMoreIsNonEmptyZeroOrMore(alias);
  }

  /** Every link made through the create form, with in-range draws, can be saved unchanged through this form. */
  lemma CreatedLinkIsEditable(v: LinkCreateForm.FormValues, userId: string, draws: seq<int>)
    requires LinkCreateForm.AliasAccepted(v.alias)
    requires Links.DrawsInRange(draws) && Links.DefaultAliasLength <= |draws|
    ensures var generated := Links.AliasFrom(draws[..Links.DefaultAliasLength]);
      AliasAccepted(Links.NewLinkPayload(userId, LinkCreateForm.RequestOf(v), generated).alias)
  {
    var prefix := draws[..Links.DefaultAliasLength];
    assert Links.DrawsInRange(prefix);
    Links.AliasFromExact(prefix);
    LinkCreateForm.StoredAlias(v, userId, prefix);
    var stored := Links.NewLinkPayload(userId, LinkCreateForm.RequestOf(v), Links.AliasFrom(prefix)).alias;
    assert stored != "";
    EditRuleIsCreateRuleWithoutBlank(stored);
  }

  /** `{ original_url, alias }`: both fields are sent, so both columns are written. */
  function RequestOf(v: FormValues): (d: Links.UpdateLinkData)
    ensures d.originalUrl == Some(v.originalUrl) && d.alias == Some(v.alias)
  {
    Links.UpdateLinkData(Some(v.originalUrl), Some(v.alias))
  }

  /** Submitting the fields as the reset filled them changes nothing but `updated_at`. */
  lemma UnchangedSubmitOnlyTouchesUpdatedAt(link: Link, now: Instant)
    ensures Links.ApplyUpdate(link, Links.UpdatePayloadOf(RequestOf(ValuesOf(link)), now)) == link.(updatedAt := now)
  {
  }

  class EditFormState {
    var link: Link
    var values: FormValues
    var isLoading: bool
    var toasts: seq<Toast>

    constructor (link: Link)
      ensures this.link == link && values == ValuesOf(link) && !isLoading && toasts == []
    {
      this.link := link;
      values := ValuesOf(link);
      isLoading := false;
      toasts := [];
    }

    /** The effect that runs when the form is given another link: the fields show that link. */
    method ResetForLink(newLink: Link)
      modifies this`link, this`values
      ensures link == newLink && values == ValuesOf(newLink)
    {
      link := newLink;
      values := ValuesOf(newLink);
    }

    /**
     * `onSubmit`, called with values the schema accepted: updates the link the form was
     * opened on; on success hands the new row to `onSuccess` and asks to close, on
     * failure shows the error as a toast.
     */
    method OnSubmit(store: Links.LinkStore, data: FormValues, now: Instant, fault: Option<Thrown>, noRow: Thrown)
      returns (updated: Option<Link>, closeRequested: bool)
      requires AliasAccepted(data.alias)
      requires store.Valid()
      modifies this`isLoading, this`toasts, store`rows
      ensures store.Valid() && !isLoading
      ensures fault.None? && Links.HasId(old(store.rows), link.id) ==>
        var payload := Links.UpdatePayloadOf(RequestOf(data), now);
        store.rows == Links.UpdateWhere(old(store.rows), Links.Eq(Links.IdColumn, link.id), payload) &&
        updated.Some? && updated.value.id == link.id &&
        (forall i :: 0 <= i < |old(store.rows)| && old(store.rows)[i].id == link.id ==>
          updated.value == Links.ApplyUpdate(old(store.rows)[i], payload)) &&
        toasts == old(toasts) + [SuccessToast(UpdatedMessage)] && closeRequested
      ensures !(fault.None? && Links.HasId(old(store.rows), link.id)) ==>
        var thrown := if fault.Some? then fault.value else noRow;
        updated == None && !closeRequested && store.rows == old(store.rows) &&
        toasts == old(toasts) + [FormRules.SubmitErrorToast(thrown, UpdateFailedMessage)]
    {
      isLoading := true;
      ghost var before := store.rows;
      var r := store.UpdateLink(link.id, RequestOf(data), now, fault, noRow);
      if fault.None? && Links.HasId(before, link.id) {
        var i :| 0 <= i < |before| && before[i].id == link.id;
        assert r == Ok(Links.ApplyUpdate(before[i], Links.UpdatePayloadOf(RequestOf(data), now)));
      }
      match r {
        case Ok(row) =>
          toasts := toasts + [SuccessToast(UpdatedMessage)];
          updated := Some(row);
          closeRequested := true;
        case Throws(thrown) =>
          toasts := toasts + [FormRules.SubmitErrorToast(thrown, UpdateFailedMessage)];
          updated := None;
          closeRequested := false;
      }
      isLoading := false;
    }
  }
}
