/**
 * The file picker dialog (formIncrementalOpen): its state, its event handlers and the Show
 * sequence. The list view is modelled by its item list and its single selected index; the column
 * sorter is a separate object the form owns.
 */
module IncrementalOpen {
  import opened Wrappers
  import opened Sorting
  import opened Details
  import opened Filter
  import opened ColumnSorting
  import opened Navigation
  import opened Settings

  const WindowTitle: string := "Open file"

  /** The caption: the designer's "Open file", or "Open file (matches/total)" after a filter pass. */
  datatype Title = Caption | CaptionWithCounts(matches: nat, total: nat) {

    /** The form's Text: WINDOW_TITLE, followed by " (matches/total)" once a filter pass has run. */
    function Text(): (r: string)
      ensures WindowTitle <= r
      ensures this.Caption? <==> r == WindowTitle
    {
      match this
      case Caption => WindowTitle
      case CaptionWithCounts(m, t) => WindowTitle + " (" + FormatNat(m) + "/" + FormatNat(t) + ")"
    }
  }

  /** What the user does while the dialog is shown. */
  datatype UserEvent =
    | TextEdited(text: string)      // the text box now holds `text`
    | KeyPressed(key: Keys)          // a key press, seen by the form first (KeyPreview)
    | WheelTurned(delta: int)       // a mouse-wheel notch
    | HeaderClicked(column: int)    // a click on a column header
    | RowClicked(row: int)          // a click in the list: selects that row, or clears the selection off the rows
    | RowDoubleClicked              // a double click in the list

  /** How a key press ended: handled, passed on to the text box, or with an exception thrown. */
  datatype KeyOutcome = Handled | NotHandled | Threw

  class FormIncrementalOpen {
    /** ToLower and Path.Combine. */
    const platform: FormPlatform
    /** _columnSorter, the list view's ListViewItemSorter. */
    const columnSorter: ColumnSorter

    /** _fileDetails: all files of the solution. */
    var fileDetails: seq<FileDetails>
    /** _resultFile: the file opened with Enter or a double click; null when none. */
    var resultFile: FileDetails?
    /** _lastSelectedFile: the key of the file opened in the previous session, or "". */
    var lastSelectedFile: string
    /** _loading: set until the settings are loaded; filtering does nothing meanwhile. */
    var loading: bool
    /** textFileName.Text. */
    var searchText: string
    /** listFiles.Items. */
    var items: seq<ListItem>
    /** listFiles.SelectedIndices; the list allows one selected row at most. */
    var selection: Option<nat>
    var title: Title
    var width: int
    var height: int
    /** The widths of the File, Path and Project columns. */
    var columnWidths: seq<int>
    /** Close() has been called. */
    var closed: bool

    ghost predicate Valid()
      reads this, columnSorter
    {
      && |columnWidths| == 3
      && Distinct(items)
      && (selection.Some? ==> selection.value < |items|)
      && columnSorter.order != Unsorted
      && TotalForEveryColumn(columnSorter.precedes)
    }

    /** Every row shows one of the records the dialog was given. */
    ghost predicate RowsFromRecords()
      reads this
    {
      forall i :: 0 <= i < |items| ==> items[i].tag in fileDetails
    }

    /** The records' contents as a filter pass reads them. */
    function Records(): seq<Record>
      reads this, fileDetails
    {
      Snapshot(fileDetails)
    }

    /** The filter pass the current state asks for. */
    function CurrentPass(): Pass
      reads this, columnSorter, fileDetails
    {
      FilterPass(platform, columnSorter.Comparer(), Records(), searchText, lastSelectedFile)
    }

    /** The list, the selection and the title are those of the filter pass `pass`. */
    ghost predicate Shows(pass: Pass)
      reads this
    {
      items == pass.visible && selection == pass.selection && title == CaptionWithCounts(pass.matches, pass.total)
    }

    /**
     * The list is the rows of the filter pass `pass` in the sorter's order, the title shows its
     * counts, and the row it selects is still the selected one.
     */
    ghost predicate ShowsSorted(pass: Pass)
      reads this, columnSorter
    {
      && items == SortBy(ItemText, columnSorter.Comparer(), pass.visible)
      && title == CaptionWithCounts(pass.matches, pass.total)
      && (pass.selection.None? ==> selection.None?)
      && (pass.selection.Some? ==>
            && selection.Some? && selection.value < |items| && pass.selection.value < |pass.visible|
            && items[selection.value] == pass.visible[pass.selection.value])
    }

    /** With the text box empty, the filter pass the state asks for keeps every record. */
    lemma EmptyTextBoxShowsEveryRecord()
      requires searchText == ""
      ensures CurrentPass().matches == CurrentPass().total == |fileDetails|
    {
      EmptyTextShowsEveryRecord(platform, columnSorter.Comparer(), Records(), lastSelectedFile);
    }

    function CurrentSettings(): WindowSettings
      reads this
    {
      WindowSettings(width, height, columnWidths, searchText, lastSelectedFile)
    }

    /**
     * The form as InitializeComponent and the constructor leave it. The sorter's own initial column
     * is a parameter; the constructor sets its order to ascending.
     */
    constructor (platform: FormPlatform, precedes: (int, SortOrder, Row, Row) -> bool, sortColumn: int, width: int, height: int)
      requires TotalForEveryColumn(precedes)
      ensures Valid() && fresh(columnSorter)
      ensures this.platform == platform && columnSorter.precedes == precedes
      ensures columnSorter.State() == SortState(sortColumn, Ascending)
      ensures fileDetails == [] && resultFile == null && lastSelectedFile == "" && loading
      ensures searchText == "" && items == [] && selection == None && title == Caption
      ensures this.width == width && this.height == height && columnWidths == [200, 400, 200]
      ensures !closed
    {
      this.platform := platform;
      this.columnSorter := new ColumnSorter(sortColumn, Unsorted, precedes);
      fileDetails := [];
      resultFile := null;
      lastSelectedFile := "";
      loading := true;
      searchText := "";
      items := [];
      selection := None;
      title := Caption;
      this.width := width;
      this.height := height;
      columnWidths := [200, 400, 200];
      closed := false;
      new;
      columnSorter.order := Ascending;
    }

    /** The records whose file name contains the lower-cased search text, in their original order. */
    method GetMatchingFiles() returns (matching: seq<FileDetails>)
      ensures Snapshot(matching) == Matching(platform.lower, Records(), platform.lower(searchText))
    {
      var searchString := platform.lower(searchText);
      matching := [];
      var i := 0;
      while i < |fileDetails|
        invariant 0 <= i <= |fileDetails|
        invariant Snapshot(matching) == Matching(platform.lower, Snapshot(fileDetails[..i]), searchString)
      {
        var f := fileDetails[i];
        MatchingStep(platform.lower, fileDetails, i, matching, searchString);
        if Match(platform.lower, Record(f, RowOf(f)), searchString) {
          matching := matching + [f];
        }
        i := i + 1;
      }
      assert fileDetails[..i] == fileDetails;
    }

    /**
     * The items FilterFileList creates for the matching records, one per record in their order, and
     * the item of the first record whose key is the remembered key.
     */
    method CreateItems(matchingDetails: seq<FileDetails>) returns (matchingItems: seq<ListItem>, itemToSelect: Option<ListItem>)
      ensures matchingItems == NewItems(Snapshot(matchingDetails), 0)
      ensures itemToSelect == Chosen(platform.combine, Snapshot(matchingDetails), lastSelectedFile)
    {
      ghost var m := Snapshot(matchingDetails);
      matchingItems := [];
      itemToSelect := None;
      var j := 0;
      while j < |matchingDetails|
        invariant 0 <= j <= |matchingDetails|
        invariant |matchingItems| == j
        invariant forall k :: 0 <= k < j ==> matchingItems[k] == ListItem(k, m[k].row, m[k].tag)
        invariant lastSelectedFile == "" ==> itemToSelect.None?
        invariant itemToSelect.None? && lastSelectedFile != "" ==>
          forall k :: 0 <= k < j ==> Key(platform.combine, m[k]) != lastSelectedFile
        invariant itemToSelect.Some? ==> itemToSelect.value.serial < j && itemToSelect.value == matchingItems[itemToSelect.value.serial]
        invariant itemToSelect.Some? ==> Key(platform.combine, RecordOf(itemToSelect.value)) == lastSelectedFile
        invariant itemToSelect.Some? ==>
          forall k :: 0 <= k < itemToSelect.value.serial ==> Key(platform.combine, m[k]) != lastSelectedFile
      {
        var matchingFile := matchingDetails[j];
        var item := ListItem(j, Row(matchingFile.fileName, matchingFile.path, matchingFile.project), matchingFile);
        matchingItems := matchingItems + [item];
        if itemToSelect.None? && lastSelectedFile != "" {
          if platform.combine(matchingFile.path, matchingFile.fileName) == lastSelectedFile {
            itemToSelect := Some(item);
          }
        }
        j := j + 1;
      }
      ghost var chosen := Chosen(platform.combine, m, lastSelectedFile);
      if chosen.Some? && itemToSelect.Some? {
        assert !(chosen.value.serial < itemToSelect.value.serial);
        assert !(itemToSelect.value.serial < chosen.value.serial);
      }
    }

    /**
     * The body of a filter pass, up to the point where the list view takes the rows: filter, create
     * the items, sort them with the sorter's comparer, and pick the row to select.
     */
    method RunFilterPass() returns (pass: Pass)
      ensures pass == CurrentPass()
      ensures pass.total == |fileDetails|
      ensures pass.selection.Some? ==> pass.selection.value < |pass.visible|
      ensures Distinct(pass.visible)
      ensures forall i :: 0 <= i < |pass.visible| ==> pass.visible[i].tag in fileDetails
    {
      var matchingDetails := GetMatchingFiles();
      var matchingItems, itemToSelect := CreateItems(matchingDetails);
      ghost var m := Snapshot(matchingDetails);

      // The sorter is detached while the items are added and attached again, which sorts them.
      var leq := columnSorter.Comparer();
      var visible := SortBy(ItemText, leq, matchingItems);
      ChosenIsShown(leq, platform.combine, m, lastSelectedFile);
      var selected := SelectAfterFilter(visible, itemToSelect);
      FilterPassSteps(platform, leq, fileDetails, searchText, lastSelectedFile, Records(), m, visible, selected);
      pass := Pass(visible, selected, |matchingDetails|, |fileDetails|);
    }

    /** The list view takes the rows of a pass, its selected row, and the title its counts. */
    method Display(pass: Pass)
      requires Valid()
      requires pass.selection.Some? ==> pass.selection.value < |pass.visible|
      requires Distinct(pass.visible)
      requires forall i :: 0 <= i < |pass.visible| ==> pass.visible[i].tag in fileDetails
      modifies this`items, this`selection, this`title
      ensures Valid() && Shows(pass) && RowsFromRecords()
    {
      items := pass.visible;
      selection := pass.selection;
      title := CaptionWithCounts(pass.matches, pass.total);
    }

    /**
     * The selection after the rows are replaced: cleared, then the remembered item if there is one,
     * otherwise the first row if there is one.
     */
    static method SelectAfterFilter(visible: seq<ListItem>, itemToSelect: Option<ListItem>) returns (selected: Option<nat>)
      requires itemToSelect.Some? ==> itemToSelect.value in visible
      ensures selected == AutoSelect(visible, itemToSelect)
    {
      selected := None;
      if itemToSelect.Some? {
        selected := Some(IndexOf(visible, itemToSelect.value));
      } else if selected.None? && |visible| > 0 {
        selected := Some(0);
      }
    }

    /**
     * Rebuilds the list: nothing while loading; otherwise the rows become the sorted items of the
     * matching records, the remembered file (or else the first row) is selected, and the title shows
     * the counts.
     */
    method FilterFileList()
      requires Valid()
      modifies this`items, this`selection, this`title
      ensures Valid()
      ensures old(loading) ==> items == old(items) && selection == old(selection) && title == old(title)
      ensures !loading ==> Shows(old(CurrentPass())) && RowsFromRecords()
    {
      if loading {
        return;
      }
      var pass := RunFilterPass();
      Display(pass);
    }

    /** Typing in the text box forgets the remembered file and filters again. */
    method TextFileNameTextChanged()
      requires Valid()
      modifies this`lastSelectedFile, this`items, this`selection, this`title
      ensures Valid() && lastSelectedFile == ""
      ensures old(loading) ==> items == old(items) && selection == old(selection) && title == old(title)
      ensures !loading ==> Shows(old(FilterPass(platform, columnSorter.Comparer(), Records(), searchText, ""))) && RowsFromRecords()
      ensures !loading ==> selection == if items == [] then None else Some(0)
    {
      ghost var leq := columnSorter.Comparer();
      ghost var records := Records();
      ghost var pass := FilterPass(platform, leq, records, searchText, "");
      FilterPassFallsBack(platform, leq, records, searchText, "");
      lastSelectedFile := "";
      assert Records() == records && columnSorter.Comparer() == leq;
      assert CurrentPass() == pass;
      FilterFileList();
      assert !loading ==> Shows(pass);
    }

    /** Assigning textFileName.Text: TextChanged fires only when the text actually changes. */
    method SetSearchText(text: string)
      requires Valid()
      modifies this`searchText, this`lastSelectedFile, this`items, this`selection, this`title
      ensures Valid() && searchText == text
      ensures text == old(searchText) ==>
        lastSelectedFile == old(lastSelectedFile) && items == old(items) && selection == old(selection) && title == old(title)
      ensures text != old(searchText) ==> lastSelectedFile == ""
      ensures text != old(searchText) && old(loading) ==> items == old(items) && selection == old(selection) && title == old(title)
      ensures text != old(searchText) && !loading ==>
        Shows(old(FilterPass(platform, columnSorter.Comparer(), Records(), text, ""))) && RowsFromRecords()
    {
      if text != searchText {
        ghost var records := Records();
        searchText := text;
        assert Records() == records;
        TextFileNameTextChanged();
      }
    }

    /**
     * Moves the selection by `jump` rows, stopping at the list's edges; with no row selected the
     * first row is selected; an empty list is left alone.
     */
    method MoveSelection(jump: int)
      requires Valid()
      modifies this`selection
      ensures Valid()
      ensures selection == Moved(|items|, old(selection), jump)
    {
      if |items| == 0 {
        return;
      }
      var moveToIndex := 0;
      if selection.Some? {
        moveToIndex := selection.value + jump;
      }
      if moveToIndex >= |items| {
        moveToIndex := |items| - 1;
      } else if moveToIndex < 0 {
        moveToIndex := 0;
      }
      selection := None;
      selection := Some(moveToIndex);
    }

    /**
     * Takes the selected row's record, or the first row's when none is selected, as the result and
     * closes the dialog. With no rows at all, reading the first row throws: `ok` is false and nothing
     * changes.
     */
    method OpenSelectedFile() returns (ok: bool)
      requires Valid()
      modifies this`resultFile, this`closed
      ensures ok <==> items != []
      ensures ok ==> closed && resultFile == items[old(selection).GetOr(0)].tag
      ensures !ok ==> resultFile == old(resultFile) && closed == old(closed)
    {
      if selection.None? {
        if |items| == 0 {
          return false;
        }
        resultFile := items[0].tag;
      } else {
        resultFile := items[selection.value].tag;
      }
      closed := true;
      ok := true;
    }

    /** A double click opens the selected row's file, when exactly one row is selected. */
    method ListFilesMouseDoubleClick()
      requires Valid()
      modifies this`resultFile, this`closed
      ensures old(selection).None? ==> resultFile == old(resultFile) && closed == old(closed)
      ensures old(selection).Some? ==> closed && resultFile == items[old(selection).value].tag
    {
      if selection.None? {
        return;
      }
      var _ := OpenSelectedFile();
    }

    /**
     * The form's key handling: arrows and page keys move the selection, Enter opens, Escape closes,
     * any other key goes on to the text box.
     */
    method FormIncrementalOpenKeyDown(key: Keys) returns (outcome: KeyOutcome)
      requires Valid()
      modifies this`selection, this`resultFile, this`closed
      ensures Valid()
      ensures KeyJump(key).Some? ==>
        outcome == Handled && selection == Moved(|items|, old(selection), KeyJump(key).value)
        && resultFile == old(resultFile) && closed == old(closed)
      ensures key == Enter ==> selection == old(selection) && (outcome == Handled <==> items != [])
      ensures key == Enter && items != [] ==> closed && resultFile == items[old(selection).GetOr(0)].tag
      ensures key == Enter && items == [] ==> outcome == Threw && resultFile == old(resultFile) && closed == old(closed)
      ensures key == Escape ==>
        outcome == Handled && closed && selection == old(selection) && resultFile == old(resultFile)
      ensures key.OtherKey? ==>
        outcome == NotHandled && selection == old(selection) && resultFile == old(resultFile) && closed == old(closed)
    {
      match key
      case Down =>
        MoveSelection(1);
        outcome := Handled;
      case Up =>
        MoveSelection(-1);
        outcome := Handled;
      case Enter =>
        var ok := OpenSelectedFile();
        outcome := if ok then Handled else Threw;
      case PageUp =>
        MoveSelection(-10);
        outcome := Handled;
      case PageDown =>
        MoveSelection(10);
        outcome := Handled;
      case Escape =>
        outcome := Handled;
        closed := true;
      case OtherKey(_) =>
        outcome := NotHandled;
    }

    /** A wheel notch away from the user moves up one row, any other notch down one row. */
    method OnMouseWheel(delta: int)
      requires Valid()
      modifies this`selection
      ensures Valid()
      ensures selection == Moved(|items|, old(selection), WheelJump(delta))
    {
      if delta > 0 {
        MoveSelection(-1);
      } else {
        MoveSelection(1);
      }
    }

    /** The list view's own response to a click: a row selects it, a click off the rows clears the selection. */
    method ListFilesClick(row: int)
      requires Valid()
      modifies this`selection
      ensures Valid()
      ensures selection == if 0 <= row < |items| then Some(row) else None
    {
      selection := if 0 <= row < |items| then Some(row) else None;
    }

    /**
     * listFiles.Sort(): the rows are put in the sorter's order, and the selected row stays selected
     * wherever it moves.
     */
    method SortItems()
      requires Valid()
      modifies this`items, this`selection
      ensures Valid()
      ensures items == SortBy(ItemText, columnSorter.Comparer(), old(items))
      ensures SortedBy(ItemText, columnSorter.Comparer(), items)
      ensures old(selection).None? ==> selection.None?
      ensures old(selection).Some? ==> selection.Some? && items[selection.value] == old(items)[old(selection).value]
      ensures old(RowsFromRecords()) ==> RowsFromRecords()
    {
      var sorted := SortBy(ItemText, columnSorter.Comparer(), items);
      columnSorter.ComparerIsTotal();
      SortBySorted(ItemText, columnSorter.Comparer(), items);
      SortByDistinct(ItemText, columnSorter.Comparer(), items);
      if selection.Some? {
        var selected := items[selection.value];
        assert selected in multiset(sorted);
        selection := Some(IndexOf(sorted, selected));
      }
      forall i | 0 <= i < |sorted|
        ensures sorted[i] in items
      {
        assert sorted[i] in multiset(items);
      }
      items := sorted;
    }

    /**
     * A click on a column header: the sort column and order follow AfterColumnClick, then the rows
     * are sorted again.
     */
    method ListFilesColumnClick(column: int)
      requires Valid()
      modifies columnSorter, this`items, this`selection
      ensures Valid()
      ensures columnSorter.State() == AfterColumnClick(old(columnSorter.State()), column)
      ensures items == SortBy(ItemText, columnSorter.Comparer(), old(items))
      ensures old(selection).None? ==> selection.None?
      ensures old(selection).Some? ==> selection.Some? && items[selection.value] == old(items)[old(selection).value]
      ensures old(RowsFromRecords()) ==> RowsFromRecords()
    {
      if column == columnSorter.sortColumn {
        if columnSorter.order == Ascending {
          columnSorter.order := Descending;
        } else {
          columnSorter.order := Ascending;
        }
      } else {
        columnSorter.sortColumn := column;
        columnSorter.order := Ascending;
      }
      SortItems();
    }

    /**
     * When the dialog first appears: one filter pass with the sorter as it is, then the first column
     * becomes the sort column and the rows are sorted again, the selected row staying selected.
     * `pass` names the filter pass the state asks for when Shown is raised.
     */
    method FormIncrementalOpenShown(ghost pass: Pass)
      requires Valid() && !loading && pass == CurrentPass()
      modifies columnSorter`sortColumn, this`items, this`selection, this`title
      ensures Valid() && RowsFromRecords()
      ensures columnSorter.State() == SortState(0, old(columnSorter.order))
      ensures ShowsSorted(pass)
    {
      FilterFileList();
      SortOnFirstColumn(pass);
    }

    /**
     * The first column becomes the sort column and the rows of `pass`, which the list shows, are
     * sorted again.
     */
    method SortOnFirstColumn(ghost pass: Pass)
      requires Valid() && Shows(pass)
      modifies columnSorter`sortColumn, this`items, this`selection
      ensures Valid() && ShowsSorted(pass)
      ensures columnSorter.State() == SortState(0, old(columnSorter.order))
      ensures old(RowsFromRecords()) ==> RowsFromRecords()
    {
      columnSorter.sortColumn := 0;
      SortItems();
    }

    /** One user action, dispatched to its handler. */
    method HandleEvent(e: UserEvent)
      requires Valid() && !loading && RowsFromRecords()
      modifies this, columnSorter
      ensures Valid() && !loading && RowsFromRecords()
      ensures fileDetails == old(fileDetails)
      ensures resultFile == old(resultFile) || resultFile in fileDetails
    {
      match e
      case TextEdited(text) =>
        SetSearchText(text);
      case KeyPressed(key) =>
        var _ := FormIncrementalOpenKeyDown(key);
      case WheelTurned(delta) =>
        OnMouseWheel(delta);
      case HeaderClicked(column) =>
        ListFilesColumnClick(column);
      case RowClicked(row) =>
        ListFilesClick(row);
      case RowDoubleClicked =>
        ListFilesMouseDoubleClick();
    }

    /**
     * ShowDialog: the dialog appears (Shown), then handles the user's actions in order until it is
     * closed; actions after the close never reach it. Actions that run out before a close stand for
     * closing the window from its title bar.
     */
    method ShowDialog(events: seq<UserEvent>)
      requires Valid() && !loading
      modifies this, columnSorter
      ensures Valid() && !loading
      ensures fileDetails == old(fileDetails)
      ensures resultFile == old(resultFile) || resultFile in fileDetails
    {
      FormIncrementalOpenShown(CurrentPass());
      closed := false;
      HandleEvents(events);
    }

    /** The message loop: the user's actions in order, until one of them closes the dialog. */
    method HandleEvents(events: seq<UserEvent>)
      requires Valid() && !loading && RowsFromRecords()
      modifies this, columnSorter
      ensures Valid() && !loading && RowsFromRecords()
      ensures fileDetails == old(fileDetails)
      ensures resultFile == old(resultFile) || resultFile in fileDetails
    {
      var i := 0;
      while i < |events| && !closed
        invariant 0 <= i <= |events|
        invariant Valid() && !loading && RowsFromRecords()
        invariant fileDetails == old(fileDetails)
        invariant resultFile == old(resultFile) || resultFile in fileDetails
      {
        HandleEvent(events[i]);
        i := i + 1;
      }
    }

    /**
     * Reads the settings from the registry key in order; the first number that does not convert
     * throws, and the handler skips the rest. Assigning the search phrase fires TextChanged, which
     * forgets the remembered file before it is read, and filters only if loading is over.
     */
    method LoadWindowSettings(store: Store)
      requires Valid()
      modifies this`width, this`height, this`columnWidths, this`searchText, this`lastSelectedFile
      modifies this`items, this`selection, this`title
      ensures Valid()
      ensures CurrentSettings() == Loaded(store, old(CurrentSettings()))
      ensures searchText == old(searchText) ==> items == old(items) && selection == old(selection) && title == old(title)
      ensures old(loading) ==> items == old(items) && selection == old(selection) && title == old(title)
      ensures var phrase := searchText;
        phrase != old(searchText) && !loading ==> Shows(old(FilterPass(platform, columnSorter.Comparer(), Records(), phrase, "")))
    {
      ghost var leq, records := columnSorter.Comparer(), Records();
      var complete := LoadSizes(store);
      assert columnSorter.Comparer() == leq && Records() == records;
      if complete {
        LoadSearchSettings(store);
      }
    }

    /**
     * The window size and the three column widths, read in order; `complete` is false when a number
     * did not convert, which throws and leaves the values read so far in place.
     */
    method LoadSizes(store: Store) returns (complete: bool)
      requires |columnWidths| == 3
      modifies this`width, this`height, this`columnWidths
      ensures (CurrentSettings(), complete) == LoadedSizes(store, old(CurrentSettings()))
    {
      var value := GetValue(store, WindowWidthName, Text("850"));
      var n := ToInt32(value);
      if n.None? {
        return false;
      }
      width := n.value;

      value := GetValue(store, WindowHeightName, Text("500"));
      n := ToInt32(value);
      if n.None? {
        return false;
      }
      height := n.value;

      value := GetValue(store, Column1WidthName, Text("200"));
      n := ToInt32(value);
      if n.None? {
        return false;
      }
      if n.value > 0 {
        columnWidths := columnWidths[0 := n.value];
      }

      value := GetValue(store, Column2WidthName, Text("400"));
      n := ToInt32(value);
      if n.None? {
        return false;
      }
      if n.value > 0 {
        columnWidths := columnWidths[1 := n.value];
      }

      value := GetValue(store, Column3WidthName, Text("200"));
      n := ToInt32(value);
      if n.None? {
        return false;
      }
      if n.value > 0 {
        columnWidths := columnWidths[2 := n.value];
      }
      complete := true;
    }

    /**
     * The last two settings: the search phrase goes into the text box (which fires TextChanged when
     * it differs), then the remembered file's key is read.
     */
    method LoadSearchSettings(store: Store)
      requires Valid()
      modifies this`searchText, this`lastSelectedFile, this`items, this`selection, this`title
      ensures Valid()
      ensures CurrentSettings() == LoadedTexts(store, old(CurrentSettings()))
      ensures searchText == old(searchText) ==> items == old(items) && selection == old(selection) && title == old(title)
      ensures old(loading) ==> items == old(items) && selection == old(selection) && title == old(title)
      ensures var phrase := searchText;
        phrase != old(searchText) && !loading ==> Shows(old(FilterPass(platform, columnSorter.Comparer(), Records(), phrase, "")))
    {
      ghost var before := CurrentSettings();
      var value := GetValue(store, SearchPhraseName, Text(""));
      ghost var pass := FilterPass(platform, columnSorter.Comparer(), Records(), ToText(value), "");
      SetSearchText(ToText(value));
      assert ToText(value) != before.searchPhrase && !loading ==> Shows(pass);
      assert width == before.width && height == before.height && columnWidths == before.columnWidths;

      value := GetValue(store, LastSelectedFileName, Text(""));
      lastSelectedFile := ToText(value);
    }

    /** Writes the settings; the opened file's key only when a file was opened. */
    method SaveWindowSettings(store: Store) returns (saved: Store)
      requires |columnWidths| == 3
      ensures saved == Saved(store, CurrentSettings(), if resultFile == null then None else Some(platform.combine(resultFile.path, resultFile.fileName)))
    {
      saved := store[WindowWidthName := DWord(width)];
      saved := saved[WindowHeightName := DWord(height)];
      saved := saved[Column1WidthName := DWord(columnWidths[0])];
      saved := saved[Column2WidthName := DWord(columnWidths[1])];
      saved := saved[Column3WidthName := DWord(columnWidths[2])];
      saved := saved[SearchPhraseName := Text(searchText)];
      if resultFile != null {
        saved := saved[LastSelectedFileName := Text(platform.combine(resultFile.path, resultFile.fileName))];
      }
    }

    /**
     * Show(fileDetails): loads the settings, ends loading, runs the dialog over the user's actions,
     * saves the settings and returns the opened file (null when none was opened in this or an
     * earlier showing of the form). The registry key is passed in and the saved key returned.
     */
    method Show(files: seq<FileDetails>, store: Store, events: seq<UserEvent>) returns (result: FileDetails?, saved: Store)
      requires Valid()
      modifies this, columnSorter
      ensures Valid() && fileDetails == files && !loading
      ensures result == resultFile
      ensures result == old(resultFile) || result in files
      ensures saved == Saved(store, CurrentSettings(), if result == null then None else Some(platform.combine(result.path, result.fileName)))
    {
      fileDetails := files;
      LoadWindowSettings(store);
      assert Valid() && fileDetails == files;
      loading := false;
      ShowDialog(events);
      saved := SaveWindowSettings(store);
      result := resultFile;
    }
  }

  /**
   * The remembered-file round trip: when a file is opened, its key is saved, loaded by the next
   * showing with the saved search phrase, and the first filter pass selects a record with that key,
   * provided some record of the new list has that key and matches the phrase.
   */
  lemma ReopeningSelectsOpenedFile(
    p: Platform, leq: (Row, Row) -> bool, store: Store, s: WindowSettings, openedKey: string,
    t: WindowSettings, records: seq<Record>)
    requires |s.columnWidths| == 3 && |t.columnWidths| == 3
    requires openedKey != ""
    requires exists x :: x in records && Match(p.lower, x, p.lower(s.searchPhrase)) && Key(p.combine, x) == openedKey
    ensures var loaded := Loaded(Saved(store, s, Some(openedKey)), t);
      var r := FilterPass(p, leq, records, loaded.searchPhrase, loaded.lastSelectedFile);
      r.selection.Some? && Key(p.combine, RecordOf(r.visible[r.selection.value])) == openedKey
  {
    SaveThenLoad(store, s, Some(openedKey), t);
    FilterPassRelocates(p, leq, records, s.searchPhrase, openedKey);
  }
}
