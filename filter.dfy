/**
 * The filter-and-select engine of the picker (GetMatchingFiles, Match and FilterFileList in
 * Source/formIncrementalOpen.cs), as functions of the records' contents, the search text and the
 * remembered key. The form class in IncrementalOpen runs these steps imperatively and is proved
 * to produce exactly what FilterPass computes.
 */
module Filter {
  import opened Wrappers
  import opened Text
  import opened Sorting
  import opened Details

  /**
   * The two platform services the engine relies on and this model does not define:
   * culture-sensitive `String.ToLower` and `System.IO.Path.Combine`.
   */
  datatype Platform = Platform(lower: string -> string, combine: (string, string) -> string)

  /** A platform whose lower-casing leaves the empty string empty, as ToLower does. */
  type FormPlatform = p: Platform | p.lower("") == "" witness Platform(s => s, (a, b) => a + b)

  /** The three column texts of a list-view item: file, path, project. */
  datatype Row = Row(fileName: string, path: string, project: string)

  /** A record object together with the field values it has while a pass runs. */
  datatype Record = Record(tag: FileDetails, row: Row)

  /** The column texts of a record object. */
  function RowOf(f: FileDetails): Row
    reads f
  {
    Row(f.fileName, f.path, f.project)
  }

  /** The records' contents, read in list order. */
  function Snapshot(files: seq<FileDetails>): (r: seq<Record>)
    reads files
    ensures |r| == |files|
    ensures forall i :: 0 <= i < |files| ==> r[i] == Record(files[i], RowOf(files[i]))
  {
    if files == [] then [] else [Record(files[0], RowOf(files[0]))] + Snapshot(files[1..])
  }

  /** Reading one more record object appends its contents. */
  lemma SnapshotAppend(files: seq<FileDetails>, f: FileDetails)
    ensures Snapshot(files + [f]) == Snapshot(files) + [Record(f, RowOf(f))]
  {
    assert forall i :: 0 <= i < |files| ==> (files + [f])[i] == files[i];
  }

  /**
   * A list-view item. `serial` stands for the item object's identity (FilterFileList numbers the
   * items it creates in creation order); `text` is the column texts copied from the record when the
   * item was created; `tag` is the record object itself.
   */
  datatype ListItem = ListItem(serial: nat, text: Row, tag: FileDetails)

  /** What the column sorter looks at when it compares two items. */
  function ItemText(item: ListItem): Row {
    item.text
  }

  /** The record an item was created from. */
  function RecordOf(item: ListItem): Record {
    Record(item.tag, item.text)
  }

  /** A record matches when its lower-cased file name contains the (already lower-cased) search string. */
  predicate Match(lower: string -> string, r: Record, searchString: string) {
    Contains(lower(r.row.fileName), searchString)
  }

  /** Match holds exactly when the search string occurs at some offset of the lower-cased name. */
  lemma MatchIff(lower: string -> string, r: Record, searchString: string)
    ensures Match(lower, r, searchString) <==> exists i :: OccursAt(lower(r.row.fileName), searchString, i)
  {
    ContainsIff(lower(r.row.fileName), searchString);
  }

  /** The empty search string matches every record. */
  lemma EmptySearchMatchesAll(lower: string -> string, r: Record)
    ensures Match(lower, r, "")
  {
    ContainsEmpty(lower(r.row.fileName));
  }

  /** When lower-casing leaves the empty string empty, an empty text box keeps every record. */
  lemma {:induction false} MatchingEmptyText(lower: string -> string, records: seq<Record>)
    requires lower("") == ""
    ensures Matching(lower, records, lower("")) == records
  {
    if records != [] {
      EmptySearchMatchesAll(lower, records[0]);
      MatchingEmptyText(lower, records[1..]);
      assert records == [records[0]] + records[1..];
    }
  }

  /** The records that match, in the order they have in `records`. */
  function Matching(lower: string -> string, records: seq<Record>, searchString: string): (r: seq<Record>)
    ensures |r| <= |records|
    ensures forall x :: x in r ==> x in records && Match(lower, x, searchString)
    ensures forall x :: x in records && Match(lower, x, searchString) ==> x in r
  {
    if records == [] then
      []
    else
      (if Match(lower, records[0], searchString) then [records[0]] else []) + Matching(lower, records[1..], searchString)
  }

  /** `r` can be obtained from `s` by deleting elements. */
  ghost predicate IsSubsequence<T>(r: seq<T>, s: seq<T>)
    decreases |s|
  {
    r == [] || (s != [] && ((r[0] == s[0] && IsSubsequence(r[1..], s[1..])) || IsSubsequence(r, s[1..])))
  }

  /** Filtering keeps the relative order of the records. */
  lemma {:induction false} MatchingIsSubsequence(lower: string -> string, records: seq<Record>, searchString: string)
    ensures IsSubsequence(Matching(lower, records, searchString), records)
  {
    if records != [] {
      MatchingIsSubsequence(lower, records[1..], searchString);
      var rest := Matching(lower, records[1..], searchString);
      if Match(lower, records[0], searchString) {
        assert Matching(lower, records, searchString) == [records[0]] + rest;
        assert ([records[0]] + rest)[1..] == rest;
      } else {
        assert Matching(lower, records, searchString) == rest;
      }
    }
  }

  /** Filtering a concatenation filters each part: the pass can be computed one record at a time. */
  lemma {:induction false} MatchingConcat(lower: string -> string, a: seq<Record>, b: seq<Record>, searchString: string)
    ensures Matching(lower, a + b, searchString) == Matching(lower, a, searchString) + Matching(lower, b, searchString)
  {
    if a != [] {
      var head := if Match(lower, a[0], searchString) then [a[0]] else [];
      assert (a + b)[0] == a[0] && (a + b)[1..] == a[1..] + b;
      assert Matching(lower, a + b, searchString) == head + Matching(lower, a[1..] + b, searchString);
      MatchingConcat(lower, a[1..], b, searchString);
      assert Matching(lower, a, searchString) == head + Matching(lower, a[1..], searchString);
    } else {
      assert a + b == b;
    }
  }

  /** One more record object read by a filtering loop either joins the matches or does not. */
  lemma MatchingStep(lower: string -> string, files: seq<FileDetails>, i: nat, matching: seq<FileDetails>, searchString: string)
    requires i < |files|
    requires Snapshot(matching) == Matching(lower, Snapshot(files[..i]), searchString)
    ensures var next := if Match(lower, Record(files[i], RowOf(files[i])), searchString) then matching + [files[i]] else matching;
      Snapshot(next) == Matching(lower, Snapshot(files[..i + 1]), searchString)
  {
    var f := files[i];
    assert files[..i + 1] == files[..i] + [f];
    SnapshotAppend(files[..i], f);
    SnapshotAppend(matching, f);
    MatchingConcat(lower, Snapshot(files[..i]), [Record(f, RowOf(f))], searchString);
  }

  /** The identity key of a record, as the picker remembers it: Path.Combine(Path, FileName). */
  function Key(combine: (string, string) -> string, r: Record): string {
    combine(r.row.path, r.row.fileName)
  }

  /** The position of the first record whose key is `key`, if any. */
  function FirstWithKey(combine: (string, string) -> string, m: seq<Record>, key: string): (r: Option<nat>)
    ensures r.Some? ==> r.value < |m| && Key(combine, m[r.value]) == key
    ensures r.Some? ==> forall j :: 0 <= j < r.value ==> Key(combine, m[j]) != key
    ensures r.None? ==> forall j :: 0 <= j < |m| ==> Key(combine, m[j]) != key
  {
    if m == [] then
      None
    else if Key(combine, m[0]) == key then
      Some(0)
    else
      match FirstWithKey(combine, m[1..], key)
      case None => None
      case Some(j) => Some(j + 1)
  }

  /** The items FilterFileList creates for the matching records, numbered from `from`. */
  function NewItems(m: seq<Record>, from: nat): (r: seq<ListItem>)
    ensures |r| == |m|
    ensures forall j :: 0 <= j < |m| ==> r[j] == ListItem(from + j, m[j].row, m[j].tag)
  {
    if m == [] then [] else [ListItem(from, m[0].row, m[0].tag)] + NewItems(m[1..], from + 1)
  }

  /** Items with distinct serial numbers are distinct. */
  lemma NewItemsDistinct(m: seq<Record>, from: nat)
    ensures Distinct(NewItems(m, from))
  {
  }

  /**
   * The item to select after the list is rebuilt: the one created for the first matching record
   * whose key is the remembered key `last`; none when `last` is "" or no record has it.
   */
  function Chosen(combine: (string, string) -> string, m: seq<Record>, last: string): (r: Option<ListItem>)
    ensures r.Some? ==> last != ""
    ensures r.Some? ==> r.value.serial < |m| && r.value == ListItem(r.value.serial, m[r.value.serial].row, m[r.value.serial].tag)
    ensures r.Some? ==> Key(combine, RecordOf(r.value)) == last
    ensures r.Some? ==> forall j :: 0 <= j < r.value.serial ==> Key(combine, m[j]) != last
    ensures r.None? ==> last == "" || forall j :: 0 <= j < |m| ==> Key(combine, m[j]) != last
  {
    var target := if last == "" then None else FirstWithKey(combine, m, last);
    if target.Some? then Some(ListItem(target.value, m[target.value].row, m[target.value].tag)) else None
  }

  /**
   * The index selected after the list is rebuilt: the position of the remembered item when there
   * is one, otherwise the first row, otherwise nothing.
   */
  function AutoSelect(visible: seq<ListItem>, chosen: Option<ListItem>): (sel: Option<nat>)
    ensures sel.Some? ==> sel.value < |visible|
    ensures sel.None? <==> visible == []
    ensures chosen.Some? && chosen.value in visible ==> sel.Some? && visible[sel.value] == chosen.value
  {
    if chosen.Some? && chosen.value in visible then
      Some(IndexOf(visible, chosen.value))
    else if |visible| > 0 then
      Some(0)
    else
      None
  }

  /** The outcome of one filter pass: the rows shown, the selected row, and the counts in the title. */
  datatype Pass = Pass(visible: seq<ListItem>, selection: Option<nat>, matches: nat, total: nat)

  /**
   * One filter pass over `records` for the text box content `text`, with `last` the remembered key
   * and `leq` the column sorter's current comparator: filter, create one item per match, sort, and
   * select.
   */
  function FilterPass(p: Platform, leq: (Row, Row) -> bool, records: seq<Record>, text: string, last: string): (r: Pass)
    ensures r.matches == |r.visible| <= r.total == |records|
    ensures r.selection.Some? ==> r.selection.value < |r.visible|
    ensures r.selection.None? <==> r.visible == []
  {
    var m := Matching(p.lower, records, p.lower(text));
    var visible := SortBy(ItemText, leq, NewItems(m, 0));
    Pass(visible, AutoSelect(visible, Chosen(p.combine, m, last)), |m|, |records|)
  }

  /** The remembered item, when there is one, is among the sorted items of the matching records. */
  lemma ChosenIsShown(leq: (Row, Row) -> bool, combine: (string, string) -> string, m: seq<Record>, last: string)
    ensures var chosen := Chosen(combine, m, last);
      chosen.Some? ==> chosen.value in SortBy(ItemText, leq, NewItems(m, 0))
  {
    var chosen := Chosen(combine, m, last);
    if chosen.Some? {
      assert chosen.value == NewItems(m, 0)[chosen.value.serial];
      assert chosen.value in multiset(SortBy(ItemText, leq, NewItems(m, 0)));
    }
  }

  /**
   * The steps of a pass performed one after the other: filtering, creating the items, sorting them,
   * finding the remembered item and selecting. They yield FilterPass, and every row carries one of
   * the record objects, none twice.
   */
  lemma FilterPassSteps(p: Platform, leq: (Row, Row) -> bool, files: seq<FileDetails>, text: string, last: string,
                        records: seq<Record>, m: seq<Record>, visible: seq<ListItem>, selected: Option<nat>)
    requires records == Snapshot(files)
    requires m == Matching(p.lower, records, p.lower(text))
    requires visible == SortBy(ItemText, leq, NewItems(m, 0))
    requires selected == AutoSelect(visible, Chosen(p.combine, m, last))
    ensures FilterPass(p, leq, records, text, last) == Pass(visible, selected, |m|, |files|)
    ensures Distinct(visible)
    ensures forall i :: 0 <= i < |visible| ==> visible[i].tag in files
  {
    NewItemsDistinct(m, 0);
    SortByDistinct(ItemText, leq, NewItems(m, 0));
    FilterPassTags(p, leq, files, text, last);
  }

  /**
   * The rows shown are exactly the matching records: every row comes from a record of `records`
   * that matches, and every matching record is shown.
   */
  lemma FilterPassIsExact(p: Platform, leq: (Row, Row) -> bool, records: seq<Record>, text: string, last: string)
    ensures var visible := FilterPass(p, leq, records, text, last).visible;
      && (forall i :: 0 <= i < |visible| ==> RecordOf(visible[i]) in records && Match(p.lower, RecordOf(visible[i]), p.lower(text)))
      && (forall x :: x in records && Match(p.lower, x, p.lower(text)) ==> exists i :: 0 <= i < |visible| && RecordOf(visible[i]) == x)
  {
    var m := Matching(p.lower, records, p.lower(text));
    var created := NewItems(m, 0);
    var visible := FilterPass(p, leq, records, text, last).visible;
    assert multiset(visible) == multiset(created);
    forall i | 0 <= i < |visible|
      ensures RecordOf(visible[i]) in records && Match(p.lower, RecordOf(visible[i]), p.lower(text))
    {
      assert visible[i] in multiset(created);
      var j :| 0 <= j < |created| && created[j] == visible[i];
      assert RecordOf(visible[i]) == m[j];
    }
    forall x | x in records && Match(p.lower, x, p.lower(text))
      ensures exists i :: 0 <= i < |visible| && RecordOf(visible[i]) == x
    {
      var j :| 0 <= j < |m| && m[j] == x;
      assert created[j] in multiset(visible);
      var i := IndexOf(visible, created[j]);
      assert RecordOf(visible[i]) == x;
    }
  }

  /**
   * With an empty text box every record is shown: the title counts all of them, and each record
   * has its row.
   */
  lemma EmptyTextShowsEveryRecord(p: Platform, leq: (Row, Row) -> bool, records: seq<Record>, last: string)
    requires p.lower("") == ""
    ensures var r := FilterPass(p, leq, records, "", last);
      && r.matches == r.total == |records|
      && forall x :: x in records ==> exists i :: 0 <= i < |r.visible| && RecordOf(r.visible[i]) == x
  {
    MatchingEmptyText(p.lower, records);
    FilterPassIsExact(p, leq, records, "", last);
    forall x | x in records
      ensures Match(p.lower, x, p.lower(""))
    {
      EmptySearchMatchesAll(p.lower, x);
    }
  }

  /** Every row of a pass over a snapshot carries one of the snapshot's record objects. */
  lemma FilterPassTags(p: Platform, leq: (Row, Row) -> bool, files: seq<FileDetails>, text: string, last: string)
    ensures var visible := FilterPass(p, leq, Snapshot(files), text, last).visible;
      forall i :: 0 <= i < |visible| ==> visible[i].tag in files
  {
    var records := Snapshot(files);
    var visible := FilterPass(p, leq, records, text, last).visible;
    FilterPassIsExact(p, leq, records, text, last);
    forall i | 0 <= i < |visible|
      ensures visible[i].tag in files
    {
      var k :| 0 <= k < |records| && records[k] == RecordOf(visible[i]);
    }
  }

  /**
   * The rows are a rearrangement of the created items, without repetitions, and in the order the
   * sorter asks for whenever its comparator is total.
   */
  lemma FilterPassIsSorted(p: Platform, leq: (Row, Row) -> bool, records: seq<Record>, text: string, last: string)
    ensures var visible := FilterPass(p, leq, records, text, last).visible;
      && multiset(visible) == multiset(NewItems(Matching(p.lower, records, p.lower(text)), 0))
      && Distinct(visible)
      && (Total(leq) ==> SortedBy(ItemText, leq, visible))
  {
    var m := Matching(p.lower, records, p.lower(text));
    NewItemsDistinct(m, 0);
    SortByDistinct(ItemText, leq, NewItems(m, 0));
    if Total(leq) {
      SortBySorted(ItemText, leq, NewItems(m, 0));
    }
  }

  /**
   * When the remembered key is set and belongs to a matching record, the selected row is the item of
   * the first matching record (in the order of `records`) that has that key.
   */
  lemma FilterPassRelocates(p: Platform, leq: (Row, Row) -> bool, records: seq<Record>, text: string, last: string)
    requires last != ""
    requires exists x :: x in records && Match(p.lower, x, p.lower(text)) && Key(p.combine, x) == last
    ensures var r := FilterPass(p, leq, records, text, last);
      var m := Matching(p.lower, records, p.lower(text));
      && r.selection.Some?
      && var item := r.visible[r.selection.value];
      && item.serial < |m| && RecordOf(item) == m[item.serial]
      && Key(p.combine, RecordOf(item)) == last
      && (forall j :: 0 <= j < item.serial ==> Key(p.combine, m[j]) != last)
  {
    var m := Matching(p.lower, records, p.lower(text));
    var r := FilterPass(p, leq, records, text, last);
    var x :| x in records && Match(p.lower, x, p.lower(text)) && Key(p.combine, x) == last;
    var k :| 0 <= k < |m| && m[k] == x;
    var chosen := Chosen(p.combine, m, last);
    assert chosen.Some?;
    assert chosen.value == NewItems(m, 0)[chosen.value.serial];
    assert chosen.value in multiset(r.visible);
  }

  /**
   * Without a remembered key, or when no matching record has it, the first row is selected, and
   * nothing when no record matches.
   */
  lemma FilterPassFallsBack(p: Platform, leq: (Row, Row) -> bool, records: seq<Record>, text: string, last: string)
    requires last == "" || forall x :: x in records && Match(p.lower, x, p.lower(text)) ==> Key(p.combine, x) != last
    ensures var r := FilterPass(p, leq, records, text, last);
      r.selection == if r.visible == [] then None else Some(0)
  {
    var m := Matching(p.lower, records, p.lower(text));
    if last != "" {
      forall j | 0 <= j < |m|
        ensures Key(p.combine, m[j]) != last
      {
        assert m[j] in m;
      }
    }
  }
}
