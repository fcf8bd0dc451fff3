/**
 * The window settings the picker keeps between sessions (LoadWindowSettings and SaveWindowSettings
 * in Source/formIncrementalOpen.cs) over an abstract registry key: a map from value names to values.
 */
module Settings {
  import opened Wrappers

  /** A registry value: a string (REG_SZ) or a 32-bit number (REG_DWORD, what SetValue writes for an int). */
  datatype RegValue = Text(s: string) | DWord(n: int)

  /** The key Software\IncrementalFileOpener\WindowSettings; a name that is absent has no value. */
  type Store = map<string, RegValue>

  const WindowWidthName := "WindowWidth"
  const WindowHeightName := "WindowHeight"
  const Column1WidthName := "Column1Width"
  const Column2WidthName := "Column2Width"
  const Column3WidthName := "Column3Width"
  const SearchPhraseName := "SearchPhrase"
  const LastSelectedFileName := "LastSelectedFile"

  const MinInt32: int := -0x8000_0000
  const MaxInt32: int := 0x7fff_ffff

  /** RegistryKey.GetValue(name, default). */
  function GetValue(store: Store, name: string, default: RegValue): RegValue {
    if name in store then store[name] else default
  }

  predicate IsDigit(c: char) {
    '0' <= c <= '9'
  }

  predicate AllDigits(s: string) {
    forall i :: 0 <= i < |s| ==> IsDigit(s[i])
  }

  /** The number a string of decimal digits denotes. */
  function DecimalValue(s: string): nat
    requires AllDigits(s)
  {
    if s == [] then 0 else 10 * DecimalValue(s[..|s| - 1]) + (s[|s| - 1] as int - '0' as int)
  }

  /**
   * Int32.Parse as Convert.ToInt32(string) uses it, for an optional minus sign followed by decimal
   * digits; None stands for the FormatException or OverflowException it throws.
   */
  function ParseInt32(s: string): (r: Option<int>)
    ensures r.Some? ==> MinInt32 <= r.value <= MaxInt32
  {
    var negative := |s| > 0 && s[0] == '-';
    var digits := if negative then s[1..] else s;
    if digits == [] || !AllDigits(digits) then
      None
    else
      var v: int := if negative then -(DecimalValue(digits) as int) else DecimalValue(digits);
      if MinInt32 <= v <= MaxInt32 then Some(v) else None
  }

  /** The decimal digits of `n`, most significant first. */
  function FormatNat(n: nat): (r: string)
    ensures r != [] && AllDigits(r)
  {
    var digit := ('0' as int + n % 10) as char;
    if n < 10 then [digit] else FormatNat(n / 10) + [digit]
  }

  /** Int32.ToString() as Convert.ToString(int) gives it: a minus sign for negative numbers, then the digits. */
  function FormatInt(n: int): string {
    if n < 0 then "-" + FormatNat(-n) else FormatNat(n)
  }

  lemma {:induction false} DecimalValueOfFormat(n: nat)
    ensures DecimalValue(FormatNat(n)) == n
  {
    if n >= 10 {
      DecimalValueOfFormat(n / 10);
      var r := FormatNat(n);
      assert r[..|r| - 1] == FormatNat(n / 10);
    }
  }

  /** Parsing a formatted 32-bit number gives the number back. */
  lemma ParseFormatRoundTrip(n: int)
    requires MinInt32 <= n <= MaxInt32
    ensures ParseInt32(FormatInt(n)) == Some(n)
  {
    if n < 0 {
      DecimalValueOfFormat(-n);
      assert FormatInt(n)[1..] == FormatNat(-n);
    } else {
      DecimalValueOfFormat(n);
    }
  }

  /** Convert.ToInt32(object): a number is taken as it is, a string is parsed; None is the exception. */
  function ToInt32(v: RegValue): Option<int> {
    match v
    case DWord(n) => Some(n)
    case Text(s) => ParseInt32(s)
  }

  /** Convert.ToString(object). */
  function ToText(v: RegValue): string {
    match v
    case Text(s) => s
    case DWord(n) => FormatInt(n)
  }

  /** The state the settings are loaded into and saved from. */
  datatype WindowSettings = WindowSettings(
    width: int,
    height: int,
    columnWidths: seq<int>,
    searchPhrase: string,
    lastSelectedFile: string)

  /** A column width read from the registry is applied only when it is positive. */
  function WithColumnWidth(s: WindowSettings, column: nat, w: int): (r: WindowSettings)
    requires column < |s.columnWidths|
  {
    if w > 0 then s.(columnWidths := s.columnWidths[column := w]) else s
  }

  /**
   * The settings after LoadWindowSettings: the values are read in order, each missing one replaced by
   * its default; the first number that does not convert throws, and the exception handler skips
   * every later value.
   */
  function Loaded(store: Store, s: WindowSettings): (r: WindowSettings)
    requires |s.columnWidths| == 3
    ensures |r.columnWidths| == 3
  {
    var (sized, complete) := LoadedSizes(store, s);
    if complete then LoadedTexts(store, sized) else sized
  }

  /**
   * The five numbers, read in order: the settings with those read so far, and whether all five
   * converted.
   */
  function LoadedSizes(store: Store, s: WindowSettings): (r: (WindowSettings, bool))
    requires |s.columnWidths| == 3
    ensures |r.0.columnWidths| == 3
    ensures r.0.searchPhrase == s.searchPhrase && r.0.lastSelectedFile == s.lastSelectedFile
  {
    var w := ToInt32(GetValue(store, WindowWidthName, Text("850")));
    if w.None? then (s, false) else
    var s := s.(width := w.value);
    var h := ToInt32(GetValue(store, WindowHeightName, Text("500")));
    if h.None? then (s, false) else
    var s := s.(height := h.value);
    var c1 := ToInt32(GetValue(store, Column1WidthName, Text("200")));
    if c1.None? then (s, false) else
    var s := WithColumnWidth(s, 0, c1.value);
    var c2 := ToInt32(GetValue(store, Column2WidthName, Text("400")));
    if c2.None? then (s, false) else
    var s := WithColumnWidth(s, 1, c2.value);
    var c3 := ToInt32(GetValue(store, Column3WidthName, Text("200")));
    if c3.None? then (s, false) else
    (WithColumnWidth(s, 2, c3.value), true)
  }

  /** The search phrase and the remembered key, read after the numbers. */
  function LoadedTexts(store: Store, s: WindowSettings): (r: WindowSettings)
    ensures r.width == s.width && r.height == s.height && r.columnWidths == s.columnWidths
  {
    s.(searchPhrase := ToText(GetValue(store, SearchPhraseName, Text(""))),
       lastSelectedFile := ToText(GetValue(store, LastSelectedFileName, Text(""))))
  }

  /**
   * The registry key after SaveWindowSettings: sizes as numbers, the search phrase as a string, and
   * the key of the opened file only when a file was opened.
   */
  function Saved(store: Store, s: WindowSettings, openedKey: Option<string>): (r: Store)
    requires |s.columnWidths| == 3
  {
    var r := store[WindowWidthName := DWord(s.width)][WindowHeightName := DWord(s.height)]
      [Column1WidthName := DWord(s.columnWidths[0])]
      [Column2WidthName := DWord(s.columnWidths[1])]
      [Column3WidthName := DWord(s.columnWidths[2])]
      [SearchPhraseName := Text(s.searchPhrase)];
    if openedKey.Some? then r[LastSelectedFileName := Text(openedKey.value)] else r
  }

  lemma ParseThreeDigits(a: char, b: char, c: char)
    requires IsDigit(a) && IsDigit(b) && IsDigit(c)
    ensures ParseInt32([a, b, c]) == Some(100 * (a as int - '0' as int) + 10 * (b as int - '0' as int) + (c as int - '0' as int))
  {
    assert [a, b, c][..2] == [a, b];
    assert [a, b][..1] == [a];
    assert [a][..0] == [];
    assert AllDigits([a, b, c]);
    assert DecimalValue([a]) == a as int - '0' as int;
    assert DecimalValue([a, b]) == 10 * (a as int - '0' as int) + (b as int - '0' as int);
  }

  /** With nothing stored, loading gives the defaults 850 x 500, columns 200/400/200 and empty strings. */
  lemma LoadedDefaults(s: WindowSettings)
    requires |s.columnWidths| == 3
    ensures Loaded(map[], s) == WindowSettings(850, 500, [200, 400, 200], "", "")
  {
    ParseThreeDigits('8', '5', '0');
    ParseThreeDigits('5', '0', '0');
    ParseThreeDigits('4', '0', '0');
    ParseThreeDigits('2', '0', '0');
  }

  /**
   * When one of the five numbers does not convert, the search phrase and the remembered key are not
   * loaded: the settings keep theirs.
   */
  lemma BadNumberSkipsPhraseAndKey(store: Store, s: WindowSettings)
    requires |s.columnWidths| == 3
    requires || ToInt32(GetValue(store, WindowWidthName, Text("850"))).None?
             || ToInt32(GetValue(store, WindowHeightName, Text("500"))).None?
             || ToInt32(GetValue(store, Column1WidthName, Text("200"))).None?
             || ToInt32(GetValue(store, Column2WidthName, Text("400"))).None?
             || ToInt32(GetValue(store, Column3WidthName, Text("200"))).None?
    ensures Loaded(store, s).searchPhrase == s.searchPhrase
    ensures Loaded(store, s).lastSelectedFile == s.lastSelectedFile
  {
  }

  /**
   * Every setting saved is stored, and converting it back gives the value saved: the sizes as
   * numbers, the search phrase and the opened file's key as strings.
   */
  lemma SavedReadsBack(store: Store, s: WindowSettings, openedKey: Option<string>)
    requires |s.columnWidths| == 3
    ensures var r := Saved(store, s, openedKey);
      && WindowWidthName in r && WindowHeightName in r && SearchPhraseName in r
      && Column1WidthName in r && Column2WidthName in r && Column3WidthName in r
      && ToInt32(r[WindowWidthName]) == Some(s.width) && ToInt32(r[WindowHeightName]) == Some(s.height)
      && ToInt32(r[Column1WidthName]) == Some(s.columnWidths[0])
      && ToInt32(r[Column2WidthName]) == Some(s.columnWidths[1])
      && ToInt32(r[Column3WidthName]) == Some(s.columnWidths[2])
      && ToText(r[SearchPhraseName]) == s.searchPhrase
      && (openedKey.Some? ==> LastSelectedFileName in r && ToText(r[LastSelectedFileName]) == openedKey.value)
  {
  }

  /** Saving writes nothing but the seven settings, and the remembered key only when a file was opened. */
  lemma SavedTouchesOnlySettings(store: Store, s: WindowSettings, openedKey: Option<string>, name: string)
    requires |s.columnWidths| == 3
    requires name !in {WindowWidthName, WindowHeightName, Column1WidthName, Column2WidthName, Column3WidthName, SearchPhraseName}
    requires openedKey.None? || name != LastSelectedFileName
    ensures (name in Saved(store, s, openedKey)) == (name in store)
    ensures name in store ==> Saved(store, s, openedKey)[name] == store[name]
  {
  }

  /**
   * Loading what was saved restores the window size, the positive column widths and the search
   * phrase, and yields as remembered key the opened file's key, or the key stored before when
   * nothing was opened.
   */
  lemma SaveThenLoad(store: Store, s: WindowSettings, openedKey: Option<string>, t: WindowSettings)
    requires |s.columnWidths| == 3 && |t.columnWidths| == 3
    ensures Loaded(Saved(store, s, openedKey), t) == WindowSettings(
      s.width,
      s.height,
      [ if s.columnWidths[0] > 0 then s.columnWidths[0] else t.columnWidths[0],
        if s.columnWidths[1] > 0 then s.columnWidths[1] else t.columnWidths[1],
        if s.columnWidths[2] > 0 then s.columnWidths[2] else t.columnWidths[2] ],
      s.searchPhrase,
      if openedKey.Some? then openedKey.value else ToText(GetValue(store, LastSelectedFileName, Text(""))))
  {
    var saved := Saved(store, s, openedKey);
    assert GetValue(saved, WindowWidthName, Text("850")) == DWord(s.width);
    assert GetValue(saved, WindowHeightName, Text("500")) == DWord(s.height);
    assert GetValue(saved, Column1WidthName, Text("200")) == DWord(s.columnWidths[0]);
    assert GetValue(saved, Column2WidthName, Text("400")) == DWord(s.columnWidths[1]);
    assert GetValue(saved, Column3WidthName, Text("200")) == DWord(s.columnWidths[2]);
    assert GetValue(saved, SearchPhraseName, Text("")) == Text(s.searchPhrase);
  }
}
