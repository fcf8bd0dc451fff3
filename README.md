# Incremental File Opener — the file picker's filter-and-select engine

The Incremental File Opener add-in shows a dialog listing every file of the open solution. As the
user types, the list shrinks to the files whose name contains the typed text. The file opened
last time is selected again when the dialog comes back. Arrow keys, page keys and the mouse wheel
move the selection. Enter or a double click opens a file, and a column-header click re-sorts the
list. The window size, the column widths, the search phrase and the opened file's key are kept
in the registry between sessions.

This project models that engine (the dialog `formIncrementalOpen` and the record `FileDetails`)
and proves what it does:

- `Details` — the `FileDetails` record: a class with three string fields and their setters.
- `Text` — ordinal substring search (`String.Contains`).
- `Sorting` — the list view's sort as a stable insertion sort under the sorter's comparator.
- `Filter` — a filter pass as functions of the records' contents, the search text and the
  remembered key. The pass matches, creates one item per match, sorts, and auto-selects.
- `ColumnSorting` — the column-header click rule and a stand-in for the list view's sorter object.
- `Navigation` — relative selection moves, clamped to the list's edges.
- `Settings` — the registry key as a map from names to values; what loading and saving do to it.
- `IncrementalOpen` — the dialog as a class whose fields are the source's fields and controls.
  Its methods are the event handlers, with loops where the source loops. Most handlers are
  proved against the `Filter`, `Navigation`, `ColumnSorting` and `Settings` functions. The
  exceptions are `OpenSelectedFile`, `ListFilesMouseDoubleClick` and `ListFilesClick`, which state
  their effect on the form directly, and `HandleEvent`, `HandleEvents` and `ShowDialog`, which
  state only what every action preserves.

Three services the dialog calls are abstract parameters:

- culture-sensitive `String.ToLower`;
- `System.IO.Path.Combine`, which builds a record's identity key;
- the comparator of `ListViewColumnSorter`, assumed only to be total for every column and order.

The registry key, the user's actions during `ShowDialog`, and the file list the host passes in
are parameters as well.

## Model

| member | source | states |
|---|---|---|
| Details.FileDetails.constructor | Source/FileDetails.cs:9-11 | a new record has its three properties empty (null is modelled as the empty string) |
| Details.FileDetails.GetFileName | Source/FileDetails.cs:15-18 | the FileName getter returns the private field |
| Details.FileDetails.GetPath | Source/FileDetails.cs:27-30 | the Path getter returns the private field |
| Details.FileDetails.GetProject | Source/FileDetails.cs:39-42 | the Project getter returns the private field |
| Details.FileDetails.SetFileName | Source/FileDetails.cs:13-23 | after `FileName = v` the getter yields `v`; Path and Project are unchanged and no other field is written |
| Details.FileDetails.SetPath | Source/FileDetails.cs:25-35 | after `Path = v` the getter yields `v`; FileName and Project are unchanged and no other field is written |
| Details.FileDetails.SetProject | Source/FileDetails.cs:37-47 | after `Project = v` the getter yields `v`; FileName and Path are unchanged and no other field is written |
| Text.Contains | Source/formIncrementalOpen.cs:171 | ordinal `String.Contains`: the part is a prefix of the string or is contained in its tail; ContainsIff and ContainsEmpty state what that means |
| Text.ContainsIff | Source/formIncrementalOpen.cs:171 | the recursive substring search holds exactly when the part occurs at some offset of the string, in both directions |
| Text.ContainsEmpty | Source/formIncrementalOpen.cs:171 | every string contains the empty string |
| Filter.Snapshot | Source/formIncrementalOpen.cs:82-85 | the records' contents read in list order: one entry per record, at the same position, carrying that object and its three properties |
| Filter.MatchIff | Source/formIncrementalOpen.cs:169-177 | a record matches exactly when the lower-cased search string occurs at some offset of its lower-cased file name |
| Filter.Match | Source/formIncrementalOpen.cs:169-177 | the match test itself: the record's file name, lower-cased, contains the search string, which the caller has already lower-cased; MatchIff states what that means |
| Filter.EmptySearchMatchesAll | Source/formIncrementalOpen.cs:78-86 | the empty search string matches every record |
| Filter.MatchingEmptyText | Source/formIncrementalOpen.cs:78-86 | with a lower-casing that keeps the empty string empty, the empty text box keeps every record, in order |
| Filter.EmptyTextShowsEveryRecord | Source/formIncrementalOpen.cs:78-160 | with the text box empty, the pass counts every record as a match and shows a row for each of them |
| Filter.Matching | Source/formIncrementalOpen.cs:75-90 | the matches are no more than the records; every match is a record that satisfies Match, and every record that satisfies Match is a match |
| Filter.MatchingIsSubsequence | Source/formIncrementalOpen.cs:82-86 | the matches keep the records' relative order: they are a subsequence of the records |
| Filter.MatchingConcat | Source/formIncrementalOpen.cs:82-86 | filtering a concatenation is the concatenation of the filtered parts, so the loop may filter one record at a time |
| Filter.MatchingStep | Source/formIncrementalOpen.cs:82-86 | one loop step over the next record appends it exactly when it matches, extending the filtered prefix by one record |
| Filter.Key | Source/formIncrementalOpen.cs:129 | the identity key of a record is Path.Combine of its Path and its FileName; FirstWithKey and Chosen compare it with the remembered key |
| Filter.FirstWithKey | Source/formIncrementalOpen.cs:126-133 | the position found holds a record with the key and no earlier position does; when nothing is found, no record has the key |
| Filter.NewItems | Source/formIncrementalOpen.cs:117-124 | one item per matching record, in their order, each numbered by creation, carrying the record's three texts and the record as its tag |
| Filter.NewItemsDistinct | Source/formIncrementalOpen.cs:119 | the created items are pairwise distinct, as newly created objects are |
| Filter.Chosen | Source/formIncrementalOpen.cs:116-133 | the remembered item is none when the key is empty; otherwise it is the item of the first matching record whose Path.Combine key equals the remembered key, and none when no matching record has that key |
| Filter.AutoSelect | Source/formIncrementalOpen.cs:145-156 | an empty list has no selection and a non-empty one always has a selected row in range; the remembered item, when it is shown, is the selected row |
| Filter.FilterPass | Source/formIncrementalOpen.cs:106-160 | the title's match count equals the rows shown and is at most the total count; something is selected exactly when some row is shown, and it is in range |
| Filter.ChosenIsShown | Source/formIncrementalOpen.cs:137-149 | the remembered item, when there is one, is among the sorted rows, so selecting it is possible |
| Filter.FilterPassSteps | Source/formIncrementalOpen.cs:104-156 | filtering, creating, sorting, finding the remembered item and selecting, done step by step, yield the filter pass; its rows carry the given record objects and none twice |
| Filter.FilterPassIsExact | Source/formIncrementalOpen.cs:106-140 | every row comes from a matching record, and every matching record is shown as a row |
| Filter.FilterPassTags | Source/formIncrementalOpen.cs:122 | every row's tag is one of the record objects the dialog was given |
| Filter.FilterPassIsSorted | Source/formIncrementalOpen.cs:137-141 | the rows are a permutation of the created items, without repetitions, and in the sorter's order when its comparator is total |
| Filter.FilterPassRelocates | Source/formIncrementalOpen.cs:126-151 | with a non-empty remembered key that some matching record has, the selected row is the item of the first matching record with that key |
| Filter.FilterPassFallsBack | Source/formIncrementalOpen.cs:152-156 | with an empty key, or one no matching record has, the first row is selected, or nothing when no row is shown |
| Sorting.Insert | Source/formIncrementalOpen.cs:140-141 | inserting one item lengthens the list by one and keeps every element, adding the item; the front of the result is the item or the list's first element |
| Sorting.SortBy | Source/formIncrementalOpen.cs:139-141 | sorting keeps the length and the elements: the sorted list is a permutation of its input |
| Sorting.SortBySorted | Source/formIncrementalOpen.cs:141 | under a total comparator the sorted list is in the sorter's order |
| Sorting.SortByDistinct | Source/formIncrementalOpen.cs:140-141 | sorting a list without repetitions gives a list without repetitions |
| Sorting.SortSortedIsIdentity | Source/formIncrementalOpen.cs:394 | sorting a list that is already in the sorter's order leaves it unchanged |
| Sorting.IndexOf | Source/formIncrementalOpen.cs:149 | the index found holds the item, and no earlier index does |
| ColumnSorting.Reversed | Source/formIncrementalOpen.cs:369-376 | Ascending becomes Descending and every other order becomes Ascending; the result is never unsorted |
| ColumnSorting.AfterColumnClick | Source/formIncrementalOpen.cs:366-383 | the clicked column becomes the sort column; clicking the sort column changes its order, clicking another column sorts ascending |
| ColumnSorting.ClickingTwiceRestores | Source/formIncrementalOpen.cs:366-376 | two clicks on the sort column's header restore the original column and order |
| ColumnSorting.ClickingNewColumnTwiceDescends | Source/formIncrementalOpen.cs:363-387 | two clicks on another column's header leave that column sorted descending |
| ColumnSorting.ColumnSorter.constructor | Source/formIncrementalOpen.cs:14 | the sorter starts with the given column, order and comparator |
| ColumnSorting.ColumnSorter.Comparer | Source/formIncrementalOpen.cs:51 | the comparer the list view sorts with (`ListViewItemSorter = _columnSorter`, also at line 141): the sorter's comparator for its current column and order |
| ColumnSorting.ColumnSorter.ComparerIsTotal | Source/formIncrementalOpen.cs:51 | a comparator total for every column and order gives a total comparer whatever the column and order are |
| Navigation.KeyJump | Source/formIncrementalOpen.cs:219-243 | Down, Up, PageDown and PageUp, and only those keys, ask for a move |
| Navigation.WheelJump | Source/formIncrementalOpen.cs:399-402 | a wheel notch always moves by exactly one row |
| Navigation.WheelActsAsArrowKeys | Source/formIncrementalOpen.cs:397-402 | a notch away from the user moves like Up and any other notch like Down; PageDown is ten rows down and PageUp ten rows up |
| Navigation.Moved | Source/formIncrementalOpen.cs:254-275 | nothing changes on an empty list; otherwise exactly one row within the list is selected, and the first row when none was selected |
| Navigation.MovedLandsOrClamps | Source/formIncrementalOpen.cs:263-270 | a move inside the list lands exactly `jump` rows away; past the last row it stops at the last, before the first at the first |
| Navigation.MoveBackUndoes | Source/formIncrementalOpen.cs:259-273 | a move that stays inside the list is undone by the opposite move |
| Navigation.MovedIsMonotone | Source/formIncrementalOpen.cs:263-270 | a longer jump never lands on an earlier row |
| Navigation.MovesInOneDirectionAdd | Source/formIncrementalOpen.cs:234-243 | two moves in one direction are one move by their sum, so ten Down presses land where one PageDown does |
| Navigation.MovedIsBounded | Source/formIncrementalOpen.cs:263-270 | a move never goes more than `jump` rows from the selected row, and always goes the way of `jump` |
| Settings.GetValue | Source/formIncrementalOpen.cs:324 | RegistryKey.GetValue: the stored value under the name, or the default when the key has none |
| Settings.ToInt32 | Source/formIncrementalOpen.cs:326 | Convert.ToInt32: a stored number is taken as it is, a stored string is parsed by ParseInt32, and None stands for the exception |
| Settings.ToText | Source/formIncrementalOpen.cs:346 | Convert.ToString: a stored string is taken as it is, a stored number is written out in decimal by FormatInt, which ParseFormatRoundTrip reads back unchanged |
| Settings.FormatNat | Source/formIncrementalOpen.cs:160 | the decimal digits of a count as `string.Format` writes `{0}` and `{1}`: never empty, all digits, and read back by DecimalValueOfFormat as the same number |
| Settings.FormatInt | Source/formIncrementalOpen.cs:346-350 | `Convert.ToString(int)`: a minus sign for a negative number, then its digits; ParseFormatRoundTrip reads every 32-bit number back unchanged |
| Settings.WithColumnWidth | Source/formIncrementalOpen.cs:333-342 | a column width read from the key is applied only when it is positive; otherwise the column keeps its width |
| Settings.ParseInt32 | Source/formIncrementalOpen.cs:324-326 | Convert.ToInt32 of a string succeeds only with a 32-bit value |
| Settings.ParseFormatRoundTrip | Source/formIncrementalOpen.cs:300-326 | a 32-bit number written out as text is read back as the same number |
| Settings.Loaded | Source/formIncrementalOpen.cs:317-358 | loading always leaves exactly three column widths |
| Settings.LoadedSizes | Source/formIncrementalOpen.cs:324-342 | reading the five numbers keeps three column widths and never touches the search phrase or the remembered key |
| Settings.LoadedTexts | Source/formIncrementalOpen.cs:344-350 | reading the two strings keeps the window size and the column widths |
| Settings.LoadedDefaults | Source/formIncrementalOpen.cs:324-350 | from an empty key the window is 850 by 500, the columns 200, 400 and 200, and the phrase and key empty |
| Settings.BadNumberSkipsPhraseAndKey | Source/formIncrementalOpen.cs:319-357 | when one of the five numbers does not convert, the exception handler skips the search phrase and the remembered key |
| Settings.Saved | Source/formIncrementalOpen.cs:295-312 | the key after saving: the five sizes as numbers, the search phrase as a string, and the opened file's Path.Combine key only when a file was opened; SavedReadsBack, SavedTouchesOnlySettings and SaveThenLoad state what that means |
| Settings.SavedReadsBack | Source/formIncrementalOpen.cs:300-311 | every setting saved is in the key, and converting it back gives the value saved: the sizes as numbers, the phrase and the opened file's key as strings |
| Settings.SavedTouchesOnlySettings | Source/formIncrementalOpen.cs:295-312 | saving changes no other value of the key, and leaves the remembered key alone when no file was opened |
| Settings.SaveThenLoad | Source/formIncrementalOpen.cs:295-358 | loading what was saved restores the size, the positive column widths and the phrase, and yields the opened file's key, or the earlier key when nothing was opened |
| IncrementalOpen.Title.Text | Source/formIncrementalOpen.cs:160 | the form's caption always starts with WINDOW_TITLE, and is exactly WINDOW_TITLE only before the first filter pass adds the counts |
| IncrementalOpen.FormIncrementalOpen.constructor | Source/formIncrementalOpen.cs:45-52 | the form starts loading, with no records, no result, no remembered key, an empty list, the designer's caption and widths, and a sorter set to ascending |
| IncrementalOpen.FormIncrementalOpen.GetMatchingFiles | Source/formIncrementalOpen.cs:75-90 | the loop returns the record objects whose contents are exactly Matching of the records for the lower-cased text |
| IncrementalOpen.FormIncrementalOpen.CreateItems | Source/formIncrementalOpen.cs:111-135 | the loop creates exactly NewItems of the matches and finds exactly the Chosen item |
| IncrementalOpen.FormIncrementalOpen.RunFilterPass | Source/formIncrementalOpen.cs:104-156 | the pass computed is the current FilterPass, with the total count of records and a selection in range; the rows are distinct and carry records of the dialog |
| IncrementalOpen.FormIncrementalOpen.Display | Source/formIncrementalOpen.cs:140-160 | the list, the selection and the title become those of the pass, and every row still carries one of the dialog's records |
| IncrementalOpen.FormIncrementalOpen.SelectAfterFilter | Source/formIncrementalOpen.cs:145-156 | clearing the selection, then selecting the remembered item or else the first row, gives AutoSelect |
| IncrementalOpen.FormIncrementalOpen.FilterFileList | Source/formIncrementalOpen.cs:92-163 | while loading nothing changes; otherwise the list, the selection and the title are those of the filter pass for the state before the call |
| IncrementalOpen.FormIncrementalOpen.TextFileNameTextChanged | Source/formIncrementalOpen.cs:184-188 | the remembered key is cleared before filtering, so the list shows the pass for an empty key and selects the first row, or nothing |
| IncrementalOpen.FormIncrementalOpen.SetSearchText | Source/formIncrementalOpen.cs:344-346 | assigning the same text changes nothing; a different text clears the remembered key and filters when not loading |
| IncrementalOpen.FormIncrementalOpen.MoveSelection | Source/formIncrementalOpen.cs:254-275 | the selection becomes Moved of the old selection by `jump` |
| IncrementalOpen.FormIncrementalOpen.OpenSelectedFile | Source/formIncrementalOpen.cs:206-215 | with rows, the result is the selected row's record, or the first row's when none is selected, and the dialog closes; with no rows the call fails and changes nothing |
| IncrementalOpen.FormIncrementalOpen.ListFilesMouseDoubleClick | Source/formIncrementalOpen.cs:195-201 | without a selected row nothing happens; with one, the result is its record and the dialog closes |
| IncrementalOpen.FormIncrementalOpen.FormIncrementalOpenKeyDown | Source/formIncrementalOpen.cs:217-249 | arrow and page keys move by 1 or 10 and are handled; Enter opens, or throws on an empty list; Escape closes; other keys are passed on unhandled, with the selection, the result and the open state unchanged |
| IncrementalOpen.FormIncrementalOpen.OnMouseWheel | Source/formIncrementalOpen.cs:397-406 | the selection moves by WheelJump of the delta |
| IncrementalOpen.FormIncrementalOpen.ListFilesClick | Source/formIncrementalOpen.cs:408-411 | the form does nothing on a mouse press; the list view's own click selects the clicked row, or clears the selection off the rows |
| IncrementalOpen.FormIncrementalOpen.SortItems | Source/formIncrementalOpen.cs:386 | the rows become their sort under the sorter's comparer and are in its order; the selected row stays selected wherever it moves, and the rows still carry the dialog's records |
| IncrementalOpen.FormIncrementalOpen.ListFilesColumnClick | Source/formIncrementalOpen.cs:363-387 | the sort state becomes AfterColumnClick of the old one and the rows are sorted again, the selected row staying selected |
| IncrementalOpen.FormIncrementalOpen.FormIncrementalOpenShown | Source/formIncrementalOpen.cs:389-395 | the first filter pass runs with the sorter as it was when Shown is raised; the rows are then exactly that pass's rows sorted on the first column, the pass's selected row is still selected (or none when the pass selects none), and the title shows the pass's counts |
| IncrementalOpen.FormIncrementalOpen.SortOnFirstColumn | Source/formIncrementalOpen.cs:393-394 | the first column becomes the sort column with the order kept, and the rows of the filter pass on display are sorted under the new comparer with that pass's selected row still selected |
| IncrementalOpen.FormIncrementalOpen.HandleEvent | Source/formIncrementalOpen.Designer.cs:66-132 | every user action keeps the form's invariants, leaves the records alone, and yields no result other than one of the records |
| IncrementalOpen.FormIncrementalOpen.HandleEvents | Source/formIncrementalOpen.cs:68 | the message loop, which stops at the first close, keeps the invariants and yields no result other than one of the records |
| IncrementalOpen.FormIncrementalOpen.ShowDialog | Source/formIncrementalOpen.cs:68 | the modal dialog raises Shown, whose contract states the first rows, then runs the message loop; it leaves the records alone and yields no result other than one of the records |
| IncrementalOpen.FormIncrementalOpen.LoadWindowSettings | Source/formIncrementalOpen.cs:317-358 | the settings become Loaded of the key and the old settings; while loading, or when the phrase read is the text box's text, the list, the selection and the title do not change; after loading, a new phrase shows the filter pass for it with the remembered key cleared |
| IncrementalOpen.FormIncrementalOpen.LoadSizes | Source/formIncrementalOpen.cs:324-342 | the size and the widths read, and whether all five numbers converted, are LoadedSizes |
| IncrementalOpen.FormIncrementalOpen.LoadSearchSettings | Source/formIncrementalOpen.cs:344-350 | the phrase and the remembered key read, with the size kept, are LoadedTexts; while loading, or when the phrase read is the text box's text, the list, the selection and the title do not change; after loading, a new phrase shows the filter pass for it with the remembered key cleared |
| IncrementalOpen.FormIncrementalOpen.SaveWindowSettings | Source/formIncrementalOpen.cs:295-312 | the key written is Saved of the current settings, with the result's Path.Combine key only when a file was opened |
| IncrementalOpen.FormIncrementalOpen.Show | Source/formIncrementalOpen.cs:60-73 | the form takes the records, loads the settings, stops loading, runs the dialog and saves; the result returned is recorded and is one of the records or the earlier result |
| IncrementalOpen.FormIncrementalOpen.EmptyTextBoxShowsEveryRecord | Source/formIncrementalOpen.cs:78-160 | with the text box empty, the filter pass the form asks for counts every record of the dialog as a match |
| IncrementalOpen.ReopeningSelectsOpenedFile | Source/formIncrementalOpen.cs:126-133 | the key saved for an opened file is loaded next time with the saved phrase, and the first pass selects a record with that key whenever a matching record has it |

## Left out

- Null strings are modelled as the empty string. `string.IsNullOrEmpty` then means `== ""`, and a record whose FileName is null (the source's `ToLower` would throw) is not modelled.
- `String.ToLower`, `Path.Combine` and the `ListViewColumnSorter` comparator are parameters: culture rules, path separators and the sorter's source are not part of this model. The comparator is assumed total for every column and order, and `ToLower` is assumed to map the empty string to itself (the type `FormPlatform`).
- The list view's sort is a stable insertion sort. The native sort's order among rows the comparator ranks equal is not specified, so when rows tie the visible order may differ.
- The records are read once per filter pass, as `Snapshot`. Nothing changes them while a pass runs; `AddinApplication.cs` builds them and is not part of this model.
- "The first record with the key" means first in the order of the records given to the dialog, as the creation loop finds it. When two records share a key, the selected row is that record's item wherever the sort puts it.
- Registry access: opening or creating the key, and any exception that saving throws, are not modelled. The key is a map passed in and returned.
- Settings.ParseInt32 models `Convert.ToInt32(string)` on an optional minus sign followed by decimal digits. Leading or trailing white space, a plus sign and culture-specific signs, all of which `Int32.Parse` accepts, are read as failures.
- The 32-bit range of a `REG_DWORD` value that is already stored is not enforced: a DWord value is taken as it is.
- Registry values of other kinds (`REG_QWORD`, `REG_BINARY`, `REG_MULTI_SZ` and so on) are not modelled: the key holds only strings and 32-bit numbers. For those kinds `Convert.ToInt32` would throw or narrow, and `Convert.ToString` of a byte array would give its type name.
- Window sizes are stored as given. The clamping by `Form` to the screen and to its minimum size is not modelled. Nor is the user resizing the window or dragging the column dividers between loading and saving: `width`, `height` and `columnWidths` change only by loading, so SaveThenLoad only ever saves the widths that were loaded.
- Cursor changes, `BeginUpdate`/`EndUpdate`, `EnsureVisible`, the selection colours of `listFiles_ItemSelectionChanged`, and `DialogResult` are not modelled so that the model can stay on the state the engine reads.
- `contextOpenContainingFolder_Click` launches an external process and is not modelled. The empty `listFiles_MouseDown` handler has nothing to model.
- `formIncrementalOpen.Designer.cs` is used only for the control defaults and the event wiring, and `AddinApplication.cs` is not part of this model.
- ListFilesClick stands for the list view's own selection on a click. Whether the native control keeps the selection when the click misses every row is not modelled: the model clears it.
- Typing is modelled as the text box's whole new content (`TextEdited`). Keys that the text box edits are passed on as `NotHandled`, and their effect on the text is not modelled.
- Keyboard focus is not modelled. When a click has given the list view the focus (it is a tab stop), a key the form leaves unhandled goes to the list view, where Home, End and letter type-ahead move its native selection; the model keeps the selection for every `OtherKey`.
- FormIncrementalOpenKeyDown: Enter on an empty list throws from `listFiles.Items[0]` and the exception leaves the handler. The model returns `Threw` with nothing changed, and HandleEvents goes on with the next action, as if the framework's handler for a thread exception had let the dialog continue. What WinForms does with that exception (a crash dialog, or ending the program) is not modelled.
- HandleEvent, HandleEvents and ShowDialog state only what every action preserves. What each action does is the contract of the handler that HandleEvent dispatches to.
- Show: closing the window by its title bar is the end of the action sequence. A second `Show` on the same form keeps the earlier result; the contract states that the result is the earlier one or one of the new records.
