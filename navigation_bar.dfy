/**
 * The navigation bar's two decisions: which of its folder rows is
 * highlighted, and whether a click outside it closes it.
 */
module NavigationBar {
  import opened Wrappers
  import opened Sequences

  /** The part of the UI state the bar is connected to; a tag is given by its name. */
  datatype UiState = UiState(dialogs: seq<string>, openedTag: Option<string>, showNavigation: bool,
                             showTrash: bool, showUntaggedNotes: bool)

  /** The bar's properties, as derived from the UI state. */
  datatype Props = Props(isDialogOpen: bool, openedTag: Option<string>, showNavigation: bool,
                         showTrash: bool, showUntaggedNotes: bool)

  /** Whether any dialog is open. */
  function IsDialogOpen(dialogs: seq<string>): (open: bool)
    ensures open <==> |dialogs| > 0
    ensures !open ==> dialogs == []
  {
    |dialogs| > 0
  }

  function ToProps(state: UiState): (props: Props)
    ensures props.isDialogOpen <==> state.dialogs != []
    ensures props.openedTag == state.openedTag && props.showNavigation == state.showNavigation
    ensures props.showTrash == state.showTrash && props.showUntaggedNotes == state.showUntaggedNotes
  {
    Props(IsDialogOpen(state.dialogs), state.openedTag, state.showNavigation, state.showTrash, state.showUntaggedNotes)
  }

  /** Whether the folder row `row` is highlighted. */
  function IsSelected(props: Props, row: string): (selected: bool)
    ensures props.openedTag.Some? ==> !selected
    ensures props.openedTag.None? ==>
      && (row == "trash" ==> (selected <==> props.showTrash))
      && (row == "untagged" ==> (selected <==> props.showUntaggedNotes))
      && (row == "all" ==> (selected <==> !props.showTrash && !props.showUntaggedNotes))
    ensures row != "trash" && row != "untagged" && row != "all" ==> !selected
  {
    if props.openedTag.Some? then false
    else
      var isAllSelected := row == "all";
      var isTrashSelected := props.showTrash && row == "trash";
      var isUntaggedSelected := props.showUntaggedNotes && row == "untagged";
      if isTrashSelected || isUntaggedSelected then true
      else isAllSelected && !props.showTrash && !props.showUntaggedNotes
  }

  /** The folder rows that ask whether they are selected, top to bottom. */
  const FolderRows: seq<string> := ["untagged", "trash", "all"]

  /** The highlighted folder rows. */
  function SelectedRows(props: Props): seq<string>
  {
    Keep(FolderRows, (row: string) => IsSelected(props, row))
  }

  /**
   * With a tag open no folder is highlighted; otherwise exactly one is,
   * unless the trash and untagged flags are both set, which highlights both.
   */
  lemma SelectedRowCount(props: Props)
    ensures props.openedTag.Some? ==> SelectedRows(props) == []
    ensures props.openedTag.None? && !(props.showTrash && props.showUntaggedNotes) ==> |SelectedRows(props)| == 1
    ensures props.openedTag.None? && props.showTrash && props.showUntaggedNotes ==>
      SelectedRows(props) == ["untagged", "trash"]
  {
    var p := (row: string) => IsSelected(props, row);
    assert FolderRows == ["untagged", "trash"] + ["all"];
    assert ["untagged", "trash"] == ["untagged"] + ["trash"];
    assert ["untagged"] == [] + ["untagged"];
    KeepSnoc(["untagged", "trash"], "all", p);
    KeepSnoc(["untagged"], "trash", p);
    KeepSnoc([], "untagged", p);
  }

  /** Whether a click outside the bar dispatches the navigation toggle. */
  function HandleClickOutside(props: Props): (toggles: bool)
    ensures toggles <==> !props.isDialogOpen && props.showNavigation
  {
    if props.isDialogOpen then false
    else props.showNavigation
  }

  /** A click outside closes the open bar exactly when no dialog is open. */
  lemma ClickOutsideCloses(state: UiState)
    ensures HandleClickOutside(ToProps(state)) <==> state.dialogs == [] && state.showNavigation
  {
  }
}
