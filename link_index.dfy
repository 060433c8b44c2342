/**
 * The links page: the table's column definitions, and the local list of links that
 * the page keeps in step with the table after a fetch, a create, an edit or a delete.
 */
module LinkIndex {
  import opened Types
  import Links

  // ---------------------------------------------------------------------------
  // List updates

  /** `[newLink, ...prev]`, after a create. */
  function Prepend(link: Link, list: seq<Link>): (r: seq<Link>)
    ensures |r| == |list| + 1 && r[0] == link && r[1..] == list
    ensures forall x :: x in r <==> x == link || x in list
  {
    [link] + list
  }

  /**
   * `prev.map((l) => l.id === updated.id ? updated : l)`, after an edit: the entries with
   * the edited id are replaced, every other entry is kept, and the ids stay in place.
   */
  function ReplaceById(list: seq<Link>, updated: Link): (r: seq<Link>)
    ensures |r| == |list|
    ensures forall i :: 0 <= i < |list| ==> r[i].id == list[i].id
    ensures forall i :: 0 <= i < |list| && list[i].id != updated.id ==> r[i] == list[i]
    ensures forall x :: x in r && x.id == updated.id ==> x == updated
  {
    seq(|list|, i requires 0 <= i < |list| => if list[i].id == updated.id then updated else list[i])
  }

  /** `prev.filter((l) => l.id !== id)`, after a delete. */
  function RemoveById(list: seq<Link>, id: string): (r: seq<Link>)
    ensures |r| <= |list|
    ensures forall x :: x in r <==> x in list && x.id != id
  {
    if list == [] then []
    else (if list[0].id == id then [] else [list[0]]) + RemoveById(list[1..], id)
  }

  /** `a` is `b` with some entries left out and the order of the rest kept. */
  predicate IsSubsequence(a: seq<Link>, b: seq<Link>)
  {
    if a == [] then true
    else if b == [] then false
    else if a[0] == b[0] then IsSubsequence(a[1..], b[1..])
    else IsSubsequence(a, b[1..])
  }

  /** The delete keeps the other links in their order. */
  lemma {:induction false} RemoveByIdKeepsOrder(list: seq<Link>, id: string)
    ensures IsSubsequence(RemoveById(list, id), list)
  {
    if list != [] {
      var rest := RemoveById(list[1..], id);
      RemoveByIdKeepsOrder(list[1..], id);
      if list[0].id == id {
        assert RemoveById(list, id) == rest;
        if rest != [] {
          assert rest[0] in rest;
          assert rest[0] != list[0];
          assert IsSubsequence(rest, list) == IsSubsequence(rest, list[1..]);
        }
      } else {
        assert RemoveById(list, id)[1..] == rest;
      }
    }
  }

  /** When no link has the id, the delete leaves the list as it was. */
  lemma {:induction false} RemoveAbsentId(list: seq<Link>, id: string)
    requires forall i :: 0 <= i < |list| ==> list[i].id != id
    ensures RemoveById(list, id) == list
  {
    if list != [] {
      RemoveAbsentId(list[1..], id);
      assert list == [list[0]] + list[1..];
    }
  }

  /** Deleting a link just created gives back the list from before the create. */
  lemma DeleteUndoesCreate(list: seq<Link>, created: Link)
    requires forall i :: 0 <= i < |list| ==> list[i].id != created.id
    ensures RemoveById(Prepend(created, list), created.id) == list
  {
    var p := Prepend(created, list);
    assert p[1..] == list;
    RemoveAbsentId(list, created.id);
  }

  /** The page's filter keeps exactly the rows the table's delete leaves. */
  lemma {:induction false} RemoveByIdMatchesStoreDelete(list: seq<Link>, id: string)
    ensures RemoveById(list, id) == Links.Remaining(list, Links.Eq(Links.IdColumn, id))
  {
    if list != [] {
      RemoveByIdMatchesStoreDelete(list[1..], id);
    }
  }

  /** Editing a link and then deleting it leaves what deleting it alone leaves. */
  lemma {:induction false} DeleteAfterEdit(list: seq<Link>, updated: Link)
    ensures RemoveById(ReplaceById(list, updated), updated.id) == RemoveById(list, updated.id)
  {
    if list != [] {
      var r := ReplaceById(list, updated);
      assert r[1..] == ReplaceById(list[1..], updated);
      DeleteAfterEdit(list[1..], updated);
    }
  }

  // ---------------------------------------------------------------------------
  // Columns

  /** The callbacks the page hands to `getColumns`: open the edit form, open the delete dialog. */
  datatype Handler = OpenEditForm | OpenDeleteDialog

  datatype Header = Label(text: string) | SortToggle(text: string)

  /** What a column renders in each row. */
  datatype Cell =
    | AliasCell
    | OriginalUrlCell
    | VisitCountCell
    | CreatedAtCell
    | EmptyCell
    | ActionsMenu(onEdit: Handler, onDelete: Handler)

  datatype ColumnDef = ColumnDef(
    id: Option<string>,
    accessorKey: Option<string>,
    header: Option<Header>,
    enableHiding: Option<bool>,
    cell: Cell)

  const ActionsId := "actions"

  /**
   * The page's five columns, in display order; only the last is the actions column, which
   * cannot be hidden and renders nothing until `getColumns` fills it in.
   */
  function Columns(): (cols: seq<ColumnDef>)
    ensures |cols| == 5
    ensures forall i :: 0 <= i < |cols| ==> (cols[i].id == Some(ActionsId) <==> i == 4)
    ensures cols[4].enableHiding == Some(false) && cols[4].cell == EmptyCell
  {
    [
      ColumnDef(None, Some("alias"), Some(Label("Short Link")), None, AliasCell),
      ColumnDef(None, Some("original_url"), Some(SortToggle("Original URL")), None, OriginalUrlCell),
      ColumnDef(None, Some("visit_count"), Some(SortToggle("Visits")), None, VisitCountCell),
      ColumnDef(None, Some("created_at"), Some(Label("Created")), None, CreatedAtCell),
      ColumnDef(Some(ActionsId), None, None, Some(false), EmptyCell)
    ]
  }

  function WithHandlers(col: ColumnDef, onEdit: Handler, onDelete: Handler): ColumnDef
  {
    if col.id == Some(ActionsId) then col.(cell := ActionsMenu(onEdit, onDelete)) else col
  }

  /** `getColumns`: the same columns in the same order, the actions column given a menu cell. */
  function GetColumns(cols: seq<ColumnDef>, onEdit: Handler, onDelete: Handler): (r: seq<ColumnDef>)
    ensures |r| == |cols|
    ensures forall i :: 0 <= i < |cols| && cols[i].id != Some(ActionsId) ==> r[i] == cols[i]
    ensures forall i :: 0 <= i < |cols| && cols[i].id == Some(ActionsId) ==>
      r[i].cell == ActionsMenu(onEdit, onDelete) &&
      r[i] == cols[i].(cell := r[i].cell)
  {
    seq(|cols|, i requires 0 <= i < |cols| => WithHandlers(cols[i], onEdit, onDelete))
  }

  /** On the page's columns, only the last one, the actions column, changes. */
  lemma PageColumns()
    ensures var r := GetColumns(Columns(), OpenEditForm, OpenDeleteDialog);
      |r| == 5 && r[..4] == Columns()[..4] &&
      r[4] == ColumnDef(Some(ActionsId), None, None, Some(false), ActionsMenu(OpenEditForm, OpenDeleteDialog))
  {
    var r := GetColumns(Columns(), OpenEditForm, OpenDeleteDialog);
    assert forall i :: 0 <= i < 4 ==> Columns()[i].id == None;
    assert r[..4] == Columns()[..4];
  }

  // ---------------------------------------------------------------------------
  // The page's state

  const LoadFailedMessage := "Failed to load links"
  const DeletedMessage := "Link deleted successfully"
  const DeleteFailedMessage := "Failed to delete link"

  class LinkIndexState {
    var links: seq<Link>
    var isLoading: bool
    var editingLink: Option<Link>
    var deletingLink: Option<Link>
    var isDeleting: bool
    var toasts: seq<Toast>

    constructor ()
      ensures links == [] && isLoading && editingLink == None && deletingLink == None
      ensures !isDeleting && toasts == []
    {
      links := [];
      isLoading := true;
      editingLink := None;
      deletingLink := None;
      isDeleting := false;
      toasts := [];
    }

    /** `fetchLinks`: replaces the list only when the fetch succeeds, and stops loading either way. */
    method FetchLinks(store: Links.LinkStore, reply: Links.Reply)
      modifies this`links, this`isLoading, this`toasts
      ensures !isLoading
      ensures Links.Listing(store.rows, reply).Ok? ==>
        links == Links.Listing(store.rows, reply).value && toasts == old(toasts)
      ensures Links.Listing(store.rows, reply).Throws? ==>
        links == old(links) && toasts == old(toasts) + [ErrorToast(LoadFailedMessage)]
    {
      var r := store.GetLinks(reply);
      if r.Ok? {
        links := r.value;
      } else {
        toasts := toasts + [ErrorToast(LoadFailedMessage)];
      }
      isLoading := false;
    }

    /** The actions menu's handlers, as the page passes them to `getColumns`. */
    method Handle(h: Handler, link: Link)
      modifies this`editingLink, this`deletingLink
      ensures h == OpenEditForm ==> editingLink == Some(link) && deletingLink == old(deletingLink)
      ensures h == OpenDeleteDialog ==> deletingLink == Some(link) && editingLink == old(editingLink)
    {
      match h
      case OpenEditForm => editingLink := Some(link);
      case OpenDeleteDialog => deletingLink := Some(link);
    }

    /** The edit form's `onOpenChange`: closing it forgets the link being edited. */
    method EditOpenChange(open: bool)
      modifies this`editingLink
      ensures editingLink == if open then old(editingLink) else None
    {
      if !open {
        editingLink := None;
      }
    }

    /** The delete dialog's `onOpenChange`: closing it forgets the link pending deletion. */
    method DeleteOpenChange(open: bool)
      modifies this`deletingLink
      ensures deletingLink == if open then old(deletingLink) else None
    {
      if !open {
        deletingLink := None;
      }
    }

    /** The create form's `onSuccess`: the new link goes first. */
    method OnCreated(newLink: Link)
      modifies this`links
      ensures links == Prepend(newLink, old(links))
      ensures links[0] == newLink && links[1..] == old(links)
    {
      links := Prepend(newLink, links);
    }

    /** The edit form's `onSuccess`: the entries with the edited id are replaced. */
    method OnUpdated(updatedLink: Link)
      modifies this`links
      ensures links == ReplaceById(old(links), updatedLink)
      ensures |links| == |old(links)|
    {
      links := ReplaceById(links, updatedLink);
    }

    /**
     * `handleDelete`: nothing without a link pending deletion; otherwise deletes it in
     * the table, drops it from the list when that succeeds, and in every case ends
     * with the dialog closed and no delete in progress.
     */
    method HandleDelete(store: Links.LinkStore, fault: Option<Thrown>)
      requires store.Valid()
      modifies this`links, this`deletingLink, this`isDeleting, this`toasts, store`rows
      ensures store.Valid()
      ensures old(deletingLink).None? ==>
        links == old(links) && deletingLink == None && isDeleting == old(isDeleting) &&
        toasts == old(toasts) && store.rows == old(store.rows)
      ensures old(deletingLink).Some? ==> !isDeleting && deletingLink == None
      ensures old(deletingLink).Some? && fault.None? ==>
        var id := old(deletingLink).value.id;
        links == RemoveById(old(links), id) &&
        store.rows == Links.Remaining(old(store.rows), Links.Eq(Links.IdColumn, id)) &&
        toasts == old(toasts) + [SuccessToast(DeletedMessage)]
      ensures old(deletingLink).Some? && fault.Some? ==>
        links == old(links) && store.rows == old(store.rows) &&
        toasts == old(toasts) + [ErrorToast(DeleteFailedMessage)]
    {
      if deletingLink.None? {
        return;
      }
      var pending := deletingLink.value;
      isDeleting := true;
      var r := store.DeleteLink(pending.id, fault);
      if r.Ok? {
        toasts := toasts + [SuccessToast(DeletedMessage)];
        links := RemoveById(links, pending.id);
      } else {
        toasts := toasts + [ErrorToast(DeleteFailedMessage)];
      }
      isDeleting := false;
      deletingLink := None;
    }
  }
}
