/**
 `sheetSetCellCommands`: one validated batch of cell updates for one worksheet, and what
 the emitted `set` commands do to a sheet.
 */
module Batch {
  import opened Base
  import opened Cells

  datatype SheetCell = SheetCell(address: string, value: Option<string>, props: map<string, string>)

  datatype Command = Command(command: string, path: string, props: map<string, string>)

  datatype BatchError =
    | BadSheetName
    | NoCells
    | TooManyCells
    | BadAddress(index: nat, reason: AddressError)
    | DuplicateAddress(index: nat)
    | NothingToSet(index: nat)
    | ValueInProps(index: nat)

  /** `unicode.IsControl`. */
  predicate IsControl(c: char) {
    c < ' ' || '\U{7F}' <= c <= '\U{9F}'
  }

  predicate ValidSheetName(sheet: string) {
    && 1 <= |sheet| <= 255
    && sheet != "." && sheet != ".."
    && forall i :: 0 <= i < |sheet| ==> sheet[i] !in "/\\:*?[]" && !IsControl(sheet[i])
  }

  /** Which names are accepted: 1 to 255 characters, no path segment of its own, and none of these characters. */
  lemma SheetNameIff(sheet: string)
    ensures ValidSheetName(sheet) <==>
              && 0 < |sheet| < 256 && sheet != [46 as char] && sheet != [46 as char, 46 as char]
              && (forall c :: c in sheet ==> c as int >= 32 && !(127 <= c as int <= 159))
              && forall c :: c in ['/', '\\', ':', '*', '?', '[', ']'] ==> c !in sheet
  {
    assert forall c: char :: c in "/\\:*?[]" <==> c in ['/', '\\', ':', '*', '?', '[', ']'];
    assert forall i :: 0 <= i < |sheet| ==> sheet[i] in sheet;
    assert "." == [46 as char] && ".." == [46 as char, 46 as char];
  }

  /** `strings.EqualFold(key, "value")`; none of the five letters folds outside ASCII. */
  predicate FoldsToValue(key: string) {
    Upper(key) == "VALUE"
  }

  ghost predicate ValidCell(cell: SheetCell) {
    && Coordinates(cell.address).Some?
    && (cell.value.Some? || cell.props != map[])
    && forall key :: key in cell.props ==> !FoldsToValue(key)
  }

  ghost predicate ValidBatch(sheet: string, cells: seq<SheetCell>) {
    && ValidSheetName(sheet)
    && 1 <= |cells| <= MAX_CELLS
    && (forall i :: 0 <= i < |cells| ==> ValidCell(cells[i]))
    && forall i, j :: 0 <= i < j < |cells| ==> Coordinates(cells[i].address) != Coordinates(cells[j].address)
  }

  function CommandProps(cell: SheetCell): map<string, string> {
    if cell.value.Some? then cell.props["value" := cell.value.value] else cell.props
  }

  function CellPath(sheet: string, name: string): string {
    "/" + sheet + "/" + name
  }

  ghost function CommandFor(sheet: string, cell: SheetCell): Command
    requires ValidCell(cell)
  {
    Command("set", CellPath(sheet, Normalized(cell.address).value), CommandProps(cell))
  }

  ghost function CommandsFor(sheet: string, cells: seq<SheetCell>): (r: seq<Command>)
    requires forall i :: 0 <= i < |cells| ==> ValidCell(cells[i])
    ensures |r| == |cells|
    ensures forall i :: 0 <= i < |cells| ==> r[i] == CommandFor(sheet, cells[i])
  {
    seq(|cells|, i requires 0 <= i < |cells| => CommandFor(sheet, cells[i]))
  }

  /** The path that a batch uses for a cell of the sheet. */
  function PathOf(sheet: string, at: Coordinate): string {
    "/" + sheet + "/" + ColumnName(at.column) + Decimal(at.row)
  }

  /**
   The command sets that cell: at the canonical name of the cell its address denotes, its value
   under "value" if it has one, and its other properties as they were given.
   */
  ghost predicate SetsCell(sheet: string, cell: SheetCell, c: Command) {
    && c.command == "set"
    && (exists at :: Denotes(cell.address, at) && c.path == "/" + sheet + "/" + ColumnName(at.column) + Decimal(at.row))
    && (if cell.value.Some? then "value" in c.props && c.props["value"] == cell.value.value else "value" !in c.props)
    && forall key :: key != "value" ==>
         (key in c.props <==> key in cell.props) && (key in c.props ==> c.props[key] == cell.props[key])
  }

  lemma CommandSetsCell(sheet: string, cell: SheetCell)
    requires ValidCell(cell)
    ensures SetsCell(sheet, cell, CommandFor(sheet, cell))
  {
    var at :| Denotes(cell.address, at);
    assert Normalized(cell.address) == Some(ColumnName(at.column) + Decimal(at.row));
    var prefix := "/" + sheet + "/";
    assert prefix + (ColumnName(at.column) + Decimal(at.row)) == prefix + ColumnName(at.column) + Decimal(at.row);
    assert "value" !in cell.props by {
      assert Upper("value") == "VALUE";
    }
  }

  /** Why a batch is refused: its name, its size, or the first cell that cannot be set or stands twice. */
  ghost predicate Explains(sheet: string, cells: seq<SheetCell>, e: BatchError) {
    match e
    case BadSheetName => !ValidSheetName(sheet)
    case NoCells => ValidSheetName(sheet) && |cells| == 0
    case TooManyCells => ValidSheetName(sheet) && |cells| > 1000
    case BadAddress(i, _) => FirstAt(sheet, cells, i) && Coordinates(cells[i].address).None?
    case DuplicateAddress(i) =>
      && FirstAt(sheet, cells, i) && Coordinates(cells[i].address).Some?
      && exists j :: 0 <= j < i && Coordinates(cells[j].address) == Coordinates(cells[i].address)
    case NothingToSet(i) => FirstAt(sheet, cells, i) && cells[i].value.None? && cells[i].props == map[]
    case ValueInProps(i) => FirstAt(sheet, cells, i) && exists key :: key in cells[i].props && Upper(key) == "VALUE"
  }

  /** The cells before `i` can be set and are distinct. */
  ghost predicate FirstAt(sheet: string, cells: seq<SheetCell>, i: nat) {
    && ValidSheetName(sheet) && i < |cells| <= 1000
    && (forall k :: 0 <= k < i ==> ValidCell(cells[k]))
    && forall j, k :: 0 <= j < k < i ==> Coordinates(cells[j].address) != Coordinates(cells[k].address)
  }

  /** Succeeds exactly on valid batches, and then emits one command per cell, in order, that sets the cell. */
  method SheetSetCellCommands(sheet: string, cells: seq<SheetCell>) returns (r: Result<seq<Command>, BatchError>)
    ensures r.Ok? <==> ValidBatch(sheet, cells)
    ensures r.Ok? ==> r.value == CommandsFor(sheet, cells)
    ensures r.Ok? ==> |r.value| == |cells| && forall i :: 0 <= i < |cells| ==> SetsCell(sheet, cells[i], r.value[i])
    ensures r.Err? ==> Explains(sheet, cells, r.error)
  {
    if !ValidSheetName(sheet) {
      return Err(BadSheetName);
    }
    if |cells| == 0 {
      return Err(NoCells);
    }
    if |cells| > MAX_CELLS {
      return Err(TooManyCells);
    }
    var commands: seq<Command> := [];
    var seen: set<string> := {};
    ghost var names: seq<string> := [];
    for i := 0 to |cells|
      invariant Built(sheet, cells, commands, names) && |commands| == i
      invariant forall name :: name in seen <==> name in names
    {
      var address := NormalizeCellAddress(cells[i].address);
      if address.Err? {
        assert !ValidCell(cells[i]);
        return Err(BadAddress(i, address.error));
      }
      if address.value in seen {
        SeenBefore(sheet, cells, commands, names);
        assert FirstAt(sheet, cells, i);
        return Err(DuplicateAddress(i));
      }
      seen := seen + {address.value};
      var command :- BuildCommand(sheet, cells[i], i, address.value);
      BuiltStep(sheet, cells, commands, names);
      commands := commands + [command];
      names := names + [address.value];
    }
    forall i | 0 <= i < |cells| ensures SetsCell(sheet, cells[i], commands[i]) {
      CommandSetsCell(sheet, cells[i]);
    }
    return Ok(commands);
  }

  /** The first cells are valid and distinct; their commands and names have been collected. */
  ghost predicate Built(sheet: string, cells: seq<SheetCell>, commands: seq<Command>, names: seq<string>) {
    && |commands| == |names| <= |cells|
    && (forall k :: 0 <= k < |names| ==> ValidCell(cells[k]) && commands[k] == CommandFor(sheet, cells[k]))
    && (forall k :: 0 <= k < |names| ==> Normalized(cells[k].address) == Some(names[k]))
    && (forall j, k :: 0 <= j < k < |names| ==> Coordinates(cells[j].address) != Coordinates(cells[k].address))
  }

  lemma SeenBefore(sheet: string, cells: seq<SheetCell>, commands: seq<Command>, names: seq<string>)
    requires Built(sheet, cells, commands, names) && |names| < |cells|
    requires Coordinates(cells[|names|].address).Some? && Normalized(cells[|names|].address).value in names
    ensures !ValidBatch(sheet, cells)
    ensures exists k :: 0 <= k < |names| && Coordinates(cells[k].address) == Coordinates(cells[|names|].address)
  {
    var k :| 0 <= k < |names| && names[k] == Normalized(cells[|names|].address).value;
    NormalizedCanonical(cells[k].address, cells[|names|].address);
  }

  lemma NewCell(earlier: SheetCell, cell: SheetCell, names: seq<string>, k: nat)
    requires k < |names| && Normalized(earlier.address) == Some(names[k])
    requires Coordinates(earlier.address).Some? && Coordinates(cell.address).Some?
        && Normalized(cell.address).value !in names
    ensures Coordinates(earlier.address) != Coordinates(cell.address)
  {
    NormalizedCanonical(earlier.address, cell.address);
  }

  lemma BuiltStep(sheet: string, cells: seq<SheetCell>, commands: seq<Command>, names: seq<string>)
    requires Built(sheet, cells, commands, names) && |names| < |cells|
    requires ValidCell(cells[|names|]) && Normalized(cells[|names|].address).value !in names
    ensures Built(sheet, cells, commands + [CommandFor(sheet, cells[|names|])],
        names + [Normalized(cells[|names|].address).value])
  {
    var cell := cells[|names|];
    forall k | 0 <= k < |names| ensures Coordinates(cells[k].address) != Coordinates(cell.address) {
      NewCell(cells[k], cell, names, k);
    }
    var more, called := commands + [CommandFor(sheet, cell)], names + [Normalized(cell.address).value];
    forall k | 0 <= k < |called|
      ensures ValidCell(cells[k]) && more[k] == CommandFor(sheet, cells[k])
          && Normalized(cells[k].address) == Some(called[k])
    {
      if k < |names| { assert ValidCell(cells[k]); }
    }
  }

  /** The rest of the loop body: the property checks and the command of one cell. */
  method BuildCommand(sheet: string, cell: SheetCell, i: nat, address: string) returns (r: Result<Command, BatchError>)
    requires Normalized(cell.address) == Some(address)
    ensures r.Ok? <==> ValidCell(cell)
    ensures r.Ok? ==> r.value == CommandFor(sheet, cell)
    ensures r == Err(NothingToSet(i)) <==> cell.value.None? && cell.props == map[]
    ensures r.Err? && r.error != NothingToSet(i) ==>
              r.error == ValueInProps(i) && exists key :: key in cell.props && Upper(key) == "VALUE"
  {
    if cell.value.None? && |cell.props| == 0 {
      return Err(NothingToSet(i));
    }
    var reserved := HasReservedKey(cell.props);
    if reserved {
      return Err(ValueInProps(i));
    }
    var props := CopyProps(cell.props);
    if cell.value.Some? {
      props := props["value" := cell.value.value];
    }
    return Ok(Command("set", CellPath(sheet, address), props));
  }

  /** The loop over `cell.Props` looking for a case variant of `value`; map order is arbitrary. */
  method HasReservedKey(props: map<string, string>) returns (found: bool)
    ensures found <==> exists key :: key in props && FoldsToValue(key)
  {
    var todo := props.Keys;
    while todo != {}
      invariant todo <= props.Keys
      invariant forall key :: key in props && key !in todo ==> !FoldsToValue(key)
      decreases |todo|
    {
      var key :| key in todo;
      if FoldsToValue(key) {
        return true;
      }
      todo := todo - {key};
    }
    return false;
  }

  /** The loop that copies `cell.Props` into a private map. */
  method CopyProps(source: map<string, string>) returns (props: map<string, string>)
    ensures props == source
  {
    props := map[];
    var todo := source.Keys;
    while todo != {}
      invariant todo <= source.Keys
      invariant props == map key | key in source && key !in todo :: source[key]
      decreases |todo|
    {
      var key :| key in todo;
      props := props[key := source[key]];
      todo := todo - {key};
    }
  }

  // ---------------------------------------------------------------- what a batch does

  type Sheet = map<string, map<string, string>>

  /** One `set` command: the given properties of one cell are replaced, all else stays. */
  function Apply(sheet: Sheet, c: Command): Sheet {
    sheet[c.path := if c.path in sheet then sheet[c.path] + c.props else c.props]
  }

  function ApplyAll(sheet: Sheet, commands: seq<Command>): Sheet {
    if commands == [] then sheet
    else Apply(ApplyAll(sheet, commands[..|commands| - 1]), commands[|commands| - 1])
  }

  predicate DistinctPaths(commands: seq<Command>) {
    forall i, j :: 0 <= i < j < |commands| ==> commands[i].path != commands[j].path
  }

  lemma CommandPathsDistinct(sheet: string, cells: seq<SheetCell>)
    requires ValidBatch(sheet, cells)
    ensures DistinctPaths(CommandsFor(sheet, cells))
  {
    var commands := CommandsFor(sheet, cells);
    forall i, j | 0 <= i < j < |cells| ensures commands[i].path != commands[j].path {
      NormalizedCanonical(cells[i].address, cells[j].address);
      var a, b := Normalized(cells[i].address).value, Normalized(cells[j].address).value;
      var prefix := "/" + sheet + "/";
      assert commands[i].path[|prefix|..] == a && commands[j].path[|prefix|..] == b;
    }
  }

  /** What a cell holds after a batch with distinct paths: the effect of its own command ... */
  lemma {:induction false} BatchSets(sheet: Sheet, commands: seq<Command>, i: nat)
    requires DistinctPaths(commands) && i < |commands|
    ensures commands[i].path in ApplyAll(sheet, commands)
    ensures ApplyAll(sheet, commands)[commands[i].path] == Apply(sheet, commands[i])[commands[i].path]
  {
    var init := commands[..|commands| - 1];
    if i < |init| {
      BatchSets(sheet, init, i);
      assert init[i] == commands[i];
    } else {
      BatchKeeps(sheet, init, commands[i].path);
    }
  }

  /** ... or what it held before, when no command names it. */
  lemma {:induction false} BatchKeeps(sheet: Sheet, commands: seq<Command>, path: string)
    requires forall i :: 0 <= i < |commands| ==> commands[i].path != path
    ensures path in ApplyAll(sheet, commands) <==> path in sheet
    ensures path in sheet ==> ApplyAll(sheet, commands)[path] == sheet[path]
  {
    if commands != [] {
      BatchKeeps(sheet, commands[..|commands| - 1], path);
    }
  }

  /** The cell of the document holds what the batch gives for it, and what else it held before. */
  ghost predicate HoldsCell(before: Sheet, after: Sheet, path: string, cell: SheetCell) {
    && path in after
    && (cell.value.Some? ==> "value" in after[path] && after[path]["value"] == cell.value.value)
    && (forall key :: key in cell.props ==> key in after[path] && after[path][key] == cell.props[key])
    && forall key :: key !in cell.props && (key != "value" || cell.value.None?) ==>
         (key in after[path] <==> path in before && key in before[path])
         && (key in after[path] ==> after[path][key] == before[path][key])
  }

  /** After a valid batch every cell it names holds its value and properties. */
  lemma BatchFillsCells(name: string, cells: seq<SheetCell>, sheet: Sheet, i: nat, at: Coordinate)
    requires ValidBatch(name, cells) && i < |cells| && Denotes(cells[i].address, at)
    ensures HoldsCell(sheet, ApplyAll(sheet, CommandsFor(name, cells)), PathOf(name, at), cells[i])
  {
    var commands := CommandsFor(name, cells);
    CommandPathsDistinct(name, cells);
    BatchSets(sheet, commands, i);
    CommandSetsCell(name, cells[i]);
    assert commands[i].path == PathOf(name, at);
    AppliedHolds(sheet, commands[i], name, cells[i]);
  }

  lemma AppliedHolds(sheet: Sheet, c: Command, name: string, cell: SheetCell)
    requires ValidCell(cell) && SetsCell(name, cell, c)
    ensures HoldsCell(sheet, Apply(sheet, c), c.path, cell)
  {
    assert Upper("value") == "VALUE";
    assert "value" !in cell.props;
  }

  /** And every cell it does not name is as it was. */
  lemma BatchLeavesOthers(name: string, cells: seq<SheetCell>, sheet: Sheet, at: Coordinate)
    requires ValidBatch(name, cells) && OnSheet(at)
    requires forall i :: 0 <= i < |cells| ==> !Denotes(cells[i].address, at)
    ensures var after := ApplyAll(sheet, CommandsFor(name, cells));
            && (PathOf(name, at) in after <==> PathOf(name, at) in sheet)
            && (PathOf(name, at) in sheet ==> after[PathOf(name, at)] == sheet[PathOf(name, at)])
  {
    var commands, prefix := CommandsFor(name, cells), "/" + name + "/";
    forall i | 0 <= i < |commands| ensures commands[i].path != PathOf(name, at) {
      assert ValidCell(cells[i]) && Coordinates(cells[i].address).Some?;
      var p :| Denotes(cells[i].address, p);
      CellNameInjective(p, at);
      assert PathOf(name, at)[|prefix|..] == CellName(at) && commands[i].path[|prefix|..] == CellName(p);
    }
    BatchKeeps(sheet, commands, PathOf(name, at));
  }

  /** A batch with distinct paths acts as the set of its commands. */
  lemma BatchOrderIrrelevant(sheet: Sheet, a: seq<Command>, b: seq<Command>)
    requires DistinctPaths(a) && DistinctPaths(b)
    requires forall c :: c in a <==> c in b
    ensures ApplyAll(sheet, a) == ApplyAll(sheet, b)
  {
    forall p
      ensures p in ApplyAll(sheet, a) <==> p in ApplyAll(sheet, b)
      ensures p in ApplyAll(sheet, a) ==> ApplyAll(sheet, a)[p] == ApplyAll(sheet, b)[p]
    {
      if i :| 0 <= i < |a| && a[i].path == p {
        assert a[i] in b;
        var j :| 0 <= j < |b| && b[j] == a[i];
        BatchSets(sheet, a, i);
        BatchSets(sheet, b, j);
      } else {
        assert forall j :: 0 <= j < |b| ==> b[j] in a;
        BatchKeeps(sheet, a, p);
        BatchKeeps(sheet, b, p);
      }
    }
  }

  /** An element standing at two places of a sequence counts at least twice. */
  lemma TwiceInMultiset<T>(s: seq<T>, i: nat, j: nat)
    requires i < j < |s| && s[i] == s[j]
    ensures multiset(s)[s[i]] >= 2
  {
    assert s == s[..j] + ([s[j]] + s[j + 1..]);
    assert s[i] in s[..j];
    assert multiset(s) == multiset(s[..j]) + (multiset{s[j]} + multiset(s[j + 1..]));
  }

  lemma {:induction false} OnceInMultiset<T>(s: seq<T>, x: T)
    requires forall i, j :: 0 <= i < j < |s| ==> s[i] != s[j]
    ensures multiset(s)[x] <= 1
  {
    if s != [] {
      var init := s[..|s| - 1];
      assert s == init + [s[|s| - 1]];
      OnceInMultiset(init, x);
      assert s[|s| - 1] !in init;
    }
  }

  /** Two sequences with the same elements, as often, repeat alike. */
  lemma SameMultiset<T>(s: seq<T>, t: seq<T>)
    requires multiset(s) == multiset(t)
    ensures |s| == |t|
    ensures forall x :: x in s <==> x in t
    ensures (forall i, j :: 0 <= i < j < |t| ==> t[i] != t[j]) ==> forall i, j :: 0 <= i < j < |s| ==> s[i] != s[j]
  {
    assert |s| == |multiset(s)| && |t| == |multiset(t)|;
    forall x ensures x in s <==> x in t {
      assert x in multiset(s) <==> x in s;
      assert x in multiset(t) <==> x in t;
    }
    if forall i, j :: 0 <= i < j < |t| ==> t[i] != t[j] {
      forall i, j | 0 <= i < j < |s| ensures s[i] != s[j] {
        if s[i] == s[j] {
          TwiceInMultiset(s, i, j);
          OnceInMultiset(t, s[i]);
        }
      }
    }
  }

  /** Permuting the cells of a valid batch gives a valid batch... */
  lemma PermutedBatchValid(name: string, cells: seq<SheetCell>, permuted: seq<SheetCell>)
    requires ValidBatch(name, cells)
    requires multiset(permuted) == multiset(cells)
    ensures ValidBatch(name, permuted)
  {
    SameMultiset(permuted, cells);
    forall i, j | 0 <= i < j < |permuted| ensures Coordinates(permuted[i].address) != Coordinates(permuted[j].address) {
      assert permuted[i] in permuted && permuted[j] in permuted;
      var k :| 0 <= k < |cells| && cells[k] == permuted[i];
      var l :| 0 <= l < |cells| && cells[l] == permuted[j];
    }
    assert forall i :: 0 <= i < |permuted| ==> permuted[i] in cells;
  }

  /** ... with the same effect. */
  lemma PermutedBatchSameSheet(name: string, cells: seq<SheetCell>, permuted: seq<SheetCell>, sheet: Sheet)
    requires ValidBatch(name, cells)
    requires multiset(permuted) == multiset(cells)
    ensures ValidBatch(name, permuted)
    ensures ApplyAll(sheet, CommandsFor(name, permuted)) == ApplyAll(sheet, CommandsFor(name, cells))
  {
    PermutedBatchValid(name, cells, permuted);
    SameMultiset(permuted, cells);
    CommandPathsDistinct(name, cells);
    CommandPathsDistinct(name, permuted);
    var a, b := CommandsFor(name, permuted), CommandsFor(name, cells);
    SameImages(permuted, cells, a, b);
    BatchOrderIrrelevant(sheet, a, b);
  }

  /** Sequences with the same elements have, elementwise, the same images. */
  lemma SameImages<T, U>(s: seq<T>, t: seq<T>, fs: seq<U>, ft: seq<U>)
    requires |fs| == |s| && |ft| == |t|
    requires forall x :: x in s <==> x in t
    requires forall i, j :: 0 <= i < |s| && 0 <= j < |t| && s[i] == t[j] ==> fs[i] == ft[j]
    ensures forall y :: y in fs <==> y in ft
  {
    forall i | 0 <= i < |s| ensures fs[i] in ft {
      assert s[i] in t;
      var j :| 0 <= j < |t| && t[j] == s[i];
      assert ft[j] == fs[i];
    }
    forall j | 0 <= j < |t| ensures ft[j] in fs {
      assert t[j] in s;
      var i :| 0 <= i < |s| && s[i] == t[j];
      assert fs[i] == ft[j];
    }
  }
}
