/**
 The A1 cell address normaliser and the batch builder of `sheet_set_cells`.

 A string is its sequence of Unicode code points.  An address is read by the grammar of
 an A1 cell reference (section 18.17.2.3 of ISO/IEC 29500-1): an optional `$`, column
 letters, an optional `$`, row digits.
 */
module Cells {
  import opened Base

  const MAX_COLUMN := 16384
  const MAX_ROW := 1048576
  const MAX_CELLS := 1000

  // ---------------------------------------------------------------- column letters

  predicate IsLetter(c: char) {
    'A' <= c <= 'Z' || 'a' <= c <= 'z'
  }

  predicate AllLetters(s: string) {
    forall i :: 0 <= i < |s| ==> IsLetter(s[i])
  }

  function UpperChar(c: char): char {
    if 'a' <= c <= 'z' then (c as int - 32) as char else c
  }

  function Upper(s: string): string {
    seq(|s|, i requires 0 <= i < |s| => UpperChar(s[i]))
  }

  function LetterValue(c: char): (v: nat)
    requires IsLetter(c)
    ensures 1 <= v <= 26
  {
    UpperChar(c) as int - 'A' as int + 1
  }

  /** Bijective base 26: A is 1, Z is 26, AA is 27, XFD is 16384. */
  function ColumnNumber(s: string): nat
    requires AllLetters(s)
  {
    if s == [] then 0 else ColumnNumber(s[..|s| - 1]) * 26 + LetterValue(s[|s| - 1])
  }

  function ColumnName(n: nat): (s: string)
    ensures AllLetters(s) && (n > 0 ==> |s| > 0)
  {
    if n == 0 then [] else ColumnName((n - 1) / 26) + [('A' as int + (n - 1) % 26) as char]
  }

  lemma {:induction false} ColumnNameNumber(n: nat)
    ensures ColumnNumber(ColumnName(n)) == n
  {
    if n > 0 {
      ColumnNameNumber((n - 1) / 26);
      var s := ColumnName(n);
      assert s[..|s| - 1] == ColumnName((n - 1) / 26);
    }
  }

  /** Column letters are a bijective numeral: the number determines the upper-case letters. */
  lemma LastDigitOf(m: nat, v: nat)
    requires 1 <= v <= 26
    ensures (m * 26 + v - 1) / 26 == m && (m * 26 + v - 1) % 26 == v - 1
  {
  }

  lemma {:induction false} ColumnNumberName(s: string)
    requires AllLetters(s)
    ensures ColumnName(ColumnNumber(s)) == Upper(s)
    ensures s != [] ==> ColumnNumber(s) > 0
  {
    if s != [] {
      var init, v := s[..|s| - 1], LetterValue(s[|s| - 1]);
      ColumnNumberName(init);
      LastDigitOf(ColumnNumber(init), v);
      assert Upper(s) == Upper(init) + [UpperChar(s[|s| - 1])];
    }
  }

  /** Reading further letters never makes a column number smaller. */
  lemma {:induction false} ColumnNumberMonotone(s: string, k: nat)
    requires AllLetters(s) && k <= |s|
    ensures ColumnNumber(s[..k]) <= ColumnNumber(s)
  {
    if k < |s| {
      ColumnNumberMonotone(s[..|s| - 1], k);
      assert s[..|s| - 1][..k] == s[..k];
    } else {
      assert s[..k] == s;
    }
  }

  lemma {:induction false} DecimalValueMonotone(s: string, k: nat)
    requires AllDigits(s) && k <= |s|
    ensures DecimalValue(s[..k]) <= DecimalValue(s)
  {
    if k < |s| {
      DecimalValueMonotone(s[..|s| - 1], k);
      assert s[..|s| - 1][..k] == s[..k];
    } else {
      assert s[..k] == s;
    }
  }

  // ---------------------------------------------------------------- the grammar

  predicate Anchor(s: string) {
    s == "" || s == "$"
  }

  predicate Splits(address: string, lead: string, letters: string, middle: string, digits: string) {
    && address == lead + letters + middle + digits
    && Anchor(lead) && Anchor(middle)
    && letters != [] && AllLetters(letters)
    && digits != [] && AllDigits(digits)
  }

  datatype Coordinate = Coordinate(column: nat, row: nat)

  predicate OnSheet(at: Coordinate) {
    1 <= at.column <= MAX_COLUMN && 1 <= at.row <= MAX_ROW
  }

  /** The address is a well-formed A1 reference to the cell `at`. */
  ghost predicate Denotes(address: string, at: Coordinate) {
    && OnSheet(at)
    && exists lead, letters, middle, digits ::
         && Splits(address, lead, letters, middle, digits)
         && ColumnNumber(letters) == at.column
         && DecimalValue(digits) == at.row
  }

  function CellName(at: Coordinate): string {
    ColumnName(at.column) + Decimal(at.row)
  }

  /** Letters up to the first character that is no letter are forced. */
  lemma LettersForced(b: string, x: string, b': string, x': string)
    requires AllLetters(b) && AllLetters(b') && b + x == b' + x'
    requires x == "" || !IsLetter(x[0])
    requires x' == "" || !IsLetter(x'[0])
    ensures b == b' && x == x'
  {
    var whole := b + x;
    assert forall k :: 0 <= k < |b| ==> IsLetter(whole[k]);
    assert forall k :: 0 <= k < |b'| ==> IsLetter((b' + x')[k]);
    assert |b| < |whole| ==> whole[|b|] == x[0];
    assert |b'| < |whole| ==> (b' + x')[|b'|] == x'[0];
    assert |b| == |b'|;
    assert whole[..|b|] == b && (b' + x')[..|b'|] == b';
    assert whole[|b|..] == x && (b' + x')[|b'|..] == x';
  }

  /** An optional `$` is forced by what follows it. */
  lemma AnchorForced(c: string, d: string, c': string, d': string)
    requires Anchor(c) && Anchor(c') && c + d == c' + d'
    requires c == "" && d != "" ==> d[0] != '$'
    requires c' == "" && d' != "" ==> d'[0] != '$'
    ensures c == c' && d == d'
  {
    var whole := c + d;
    assert c == "$" <==> whole != "" && whole[0] == '$';
    assert c' == "$" <==> whole != "" && whole[0] == '$';
    assert whole[|c|..] == d && (c' + d')[|c'|..] == d';
  }

  /** An address splits into its four parts in at most one way. */
  lemma Regrouped(a: string, b: string, c: string, d: string)
    ensures a + b + c + d == a + (b + (c + d))
  {
  }

  lemma SplitUnique(address: string, a: string, b: string, c: string, d: string,
                    a': string, b': string, c': string, d': string)
    requires Anchor(a) && AllLetters(b) && b != [] && Anchor(c) && address == a + b + c + d
    requires c + d == "" || !IsLetter((c + d)[0])
    requires c == "" && d != "" ==> d[0] != '$'
    requires Splits(address, a', b', c', d')
    ensures a == a' && b == b' && c == c' && d == d'
  {
    Regrouped(a, b, c, d);
    Regrouped(a', b', c', d');
    AnchorForced(a, b + (c + d), a', b' + (c' + d'));
    LettersForced(b, c + d, b', c' + d');
    AnchorForced(c, d, c', d');
  }

  lemma DenotesUnique(address: string, p: Coordinate, q: Coordinate)
    requires Denotes(address, p) && Denotes(address, q)
    ensures p == q
  {
    var a, b, c, d :| Splits(address, a, b, c, d) && ColumnNumber(b) == p.column && DecimalValue(d) == p.row;
    var a', b', c', d' :| Splits(address, a', b', c', d') && ColumnNumber(b') == q.column && DecimalValue(d') == q.row;
    SplitUnique(address, a, b, c, d, a', b', c', d');
  }

  /** Round trip: the canonical name of a cell denotes that cell. */
  lemma CellNameDenotes(at: Coordinate)
    requires OnSheet(at)
    ensures Denotes(CellName(at), at)
  {
    ColumnNameNumber(at.column);
    DecimalRoundTrip(at.row);
    assert CellName(at) == "" + ColumnName(at.column) + "" + Decimal(at.row);
    assert Splits(CellName(at), "", ColumnName(at.column), "", Decimal(at.row));
  }

  lemma CellNameInjective(p: Coordinate, q: Coordinate)
    requires OnSheet(p) && OnSheet(q)
    ensures CellName(p) == CellName(q) <==> p == q
  {
    CellNameDenotes(p);
    CellNameDenotes(q);
    if CellName(p) == CellName(q) {
      DenotesUnique(CellName(p), p, q);
    }
  }

  /** What an address means: the cell it denotes, or nothing. */
  ghost function Coordinates(address: string): (r: Option<Coordinate>)
    ensures r.Some? <==> exists at :: Denotes(address, at)
    ensures forall at :: Denotes(address, at) ==> r == Some(at)
  {
    if at :| Denotes(address, at) then
      assert forall q :: Denotes(address, q) ==> q == at by {
        forall q | Denotes(address, q) ensures q == at { DenotesUnique(address, q, at); }
      }
      Some(at)
    else None
  }

  ghost function Normalized(address: string): Option<string> {
    match Coordinates(address)
    case Some(at) => Some(CellName(at))
    case None => None
  }

  /** Two accepted addresses normalise alike exactly when they denote the same cell. */
  lemma NormalizedCanonical(a: string, b: string)
    requires Coordinates(a).Some? && Coordinates(b).Some?
    ensures Normalized(a) == Normalized(b) <==> Coordinates(a) == Coordinates(b)
  {
    var p :| Denotes(a, p);
    var q :| Denotes(b, q);
    CellNameInjective(p, q);
  }

  /** Normalising twice is normalising once, and keeps the cell. */
  lemma NormalizedIdempotent(address: string)
    requires Normalized(address).Some?
    ensures Normalized(Normalized(address).value) == Normalized(address)
    ensures Coordinates(Normalized(address).value) == Coordinates(address)
  {
    var at :| Denotes(address, at);
    CellNameDenotes(at);
  }

  // ---------------------------------------------------------------- the corners of the sheet

  /** Each letter of either case has its place in the alphabet, and nothing else is a letter. */
  lemma LetterPlaces(c: char)
    ensures IsLetter(c) <==> 65 <= c as int <= 90 || 97 <= c as int <= 122
    ensures IsLetter(c) ==> LetterValue(c) == if c as int <= 90 then c as int - 64 else c as int - 96
  {
  }

  /** The letters of the columns at either end, and of the first beyond. */
  lemma ColumnsInLetters()
    ensures ColumnNumber("A") == 1 && ColumnNumber("Z") == 26 && ColumnNumber("zA") == 677
    ensures ColumnNumber("XFD") == 16384 == MAX_COLUMN && ColumnNumber("XFE") == MAX_COLUMN + 1
  {
    assert "A"[..0] == "" && "Z"[..0] == "" && "X"[..0] == "";
    assert "zA"[..1] == "z" && "z"[..0] == "" && "XF"[..1] == "X" && "XFD"[..2] == "XF" && "XFE"[..2] == "XF";
    assert ColumnNumber("z") == 26 && ColumnNumber("X") == 24;
    assert ColumnNumber("XF") == 24 * 26 + 6;
  }

  lemma RowValue(row: string, tens: string, unit: char)
    requires AllDigits(tens) && IsDigit(unit) && row == tens + [unit]
    ensures AllDigits(row) && DecimalValue(row) == DecimalValue(tens) * 10 + DigitValue(unit)
  {
    assert row[..|tens|] == tens;
  }

  lemma ShortRow()
    ensures AllDigits("007") && DecimalValue("007") == 7
  {
    RowValue("0", "", '0');
    RowValue("00", "0", '0');
    RowValue("007", "00", '7');
  }

  lemma FourDigits()
    ensures AllDigits("1048") && DecimalValue("1048") == 1048
  {
    RowValue("1", "", '1');
    RowValue("10", "1", '0');
    RowValue("104", "10", '4');
    RowValue("1048", "104", '8');
  }

  lemma LongRows()
    ensures AllDigits("1048576") && DecimalValue("1048576") == 1048576 == MAX_ROW
    ensures AllDigits("1048577") && DecimalValue("1048577") == MAX_ROW + 1
  {
    FourDigits();
    RowValue("10485", "1048", '5');
    RowValue("104857", "10485", '7');
    RowValue("1048576", "104857", '6');
    RowValue("1048577", "104857", '7');
  }

  /** A reference denotes its cell where that is on the sheet, and nothing beyond. */
  lemma ReferenceMeans(lead: string, letters: string, middle: string, digits: string)
    requires Anchor(lead) && Anchor(middle) && letters != [] && AllLetters(letters) && digits != [] && AllDigits(digits)
    ensures var at := Coordinate(ColumnNumber(letters), DecimalValue(digits));
            Coordinates(lead + letters + middle + digits) == if OnSheet(at) then Some(at) else None
  {
    var address, at := lead + letters + middle + digits, Coordinate(ColumnNumber(letters), DecimalValue(digits));
    assert Splits(address, lead, letters, middle, digits);
    if OnSheet(at) {
      assert Denotes(address, at);
    } else if q :| Denotes(address, q) {
      var a, b, c, d :| Splits(address, a, b, c, d) && ColumnNumber(b) == q.column && DecimalValue(d) == q.row;
      SplitUnique(address, lead, letters, middle, digits, a, b, c, d);
    }
  }

  /** The first and the last cell, and one with anchors, mixed case and zeros. */
  lemma SheetCorners()
    ensures Coordinates("A1") == Some(Coordinate(1, 1)) && Coordinates("$zA$007") == Some(Coordinate(677, 7))
    ensures Coordinates("XFD1048576") == Some(Coordinate(16384, 1048576))
  {
    ColumnsInLetters();
    ShortRow();
    LongRows();
    RowValue("1", "", '1');
    assert "A1" == "" + "A" + "" + "1" && "$zA$007" == "$" + "zA" + "$" + "007";
    assert "XFD1048576" == "" + "XFD" + "" + "1048576";
    ReferenceMeans("", "A", "", "1");
    ReferenceMeans("$", "zA", "$", "007");
    ReferenceMeans("", "XFD", "", "1048576");
  }

  /** What lies just beyond. */
  lemma BeyondCorners()
    ensures Coordinates("XFE1") == None && Coordinates("A1048577") == None && Coordinates("A0") == None
  {
    ColumnsInLetters();
    LongRows();
    RowValue("0", "", '0');
    RowValue("1", "", '1');
    assert "XFE1" == "" + "XFE" + "" + "1";
    assert "A1048577" == "" + "A" + "" + "1048577" && "A0" == "" + "A" + "" + "0";
    ReferenceMeans("", "XFE", "", "1");
    ReferenceMeans("", "A", "", "1048577");
    ReferenceMeans("", "A", "", "0");
  }

  // ---------------------------------------------------------------- normalizeCellAddress

  datatype AddressError = Malformed | ColumnTooLarge | RowTooLarge | RowZero

  /** `unicode.IsSpace`, which `strings.TrimSpace` trims at both ends. */
  predicate IsSpace(c: char) {
    c in "\t\n\U{0B}\U{0C}\r \U{85}\U{A0}\U{1680}\U{2028}\U{2029}\U{202F}\U{205F}\U{3000}"
        || '\U{2000}' <= c <= '\U{200A}'
  }

  /** The per-character cut-offs keep both accumulators below these bounds. */
  type ColumnAccumulator = n: nat | n < MAX_COLUMN * 26 + 27
  type RowAccumulator = n: nat | n < MAX_ROW * 10 + 10

  /** The column loop: upper-case letters to a column number, cut off above XFD. */
  method ReadColumn(column: string) returns (r: Result<nat, AddressError>)
    requires AllLetters(column) && Upper(column) == column
    ensures r.Ok? <==> ColumnNumber(column) <= MAX_COLUMN
    ensures r == if r.Ok? then Ok(ColumnNumber(column)) else Err(ColumnTooLarge)
  {
    var columnNumber: ColumnAccumulator := 0;
    var i := 0;
    while i < |column|
      invariant 0 <= i <= |column|
      invariant columnNumber == ColumnNumber(column[..i]) && columnNumber <= MAX_COLUMN
    {
      assert column[..i + 1][..i] == column[..i];
      assert Upper(column)[i] == column[i];
      columnNumber := columnNumber * 26 + (column[i] as int - 'A' as int + 1);
      i := i + 1;
      if columnNumber > MAX_COLUMN {
        ColumnNumberMonotone(column, i);
        return Err(ColumnTooLarge);
      }
    }
    assert column[..i] == column;
    return Ok(columnNumber);
  }

  /** The row loop: digits to a row number, cut off above the last row. */
  method ReadRow(digits: string) returns (r: Result<nat, AddressError>)
    ensures r.Ok? <==> AllDigits(digits) && 1 <= DecimalValue(digits) <= MAX_ROW
    ensures r.Ok? ==> r.value == DecimalValue(digits)
    ensures r == Err(RowZero) <==> AllDigits(digits) && DecimalValue(digits) == 0
    ensures r != Err(ColumnTooLarge)
    ensures r == Err(RowTooLarge) && AllDigits(digits) ==> DecimalValue(digits) > MAX_ROW
    ensures r == Err(Malformed) ==> !AllDigits(digits)
  {
    var row: RowAccumulator := 0;
    for k := 0 to |digits|
      invariant AllDigits(digits[..k])
      invariant row == DecimalValue(digits[..k]) && row <= MAX_ROW
    {
      if !IsDigit(digits[k]) {
        return Err(Malformed);
      }
      assert digits[..k + 1][..k] == digits[..k];
      row := row * 10 + DigitValue(digits[k]);
      if row > MAX_ROW {
        if AllDigits(digits) {
          DecimalValueMonotone(digits, k + 1);
        }
        return Err(RowTooLarge);
      }
    }
    assert digits[..|digits|] == digits;
    if row == 0 {
      return Err(RowZero);
    }
    return Ok(row);
  }

  /** Accepts exactly the A1 references to cells on the sheet and prints the canonical name. */
  method NormalizeCellAddress(address: string) returns (r: Result<string, AddressError>)
    ensures r.Ok? <==> exists at :: Denotes(address, at)
    ensures r.Ok? ==> Normalized(address) == Some(r.value)
  {
    if address == "" || IsSpace(address[0]) || IsSpace(address[|address| - 1]) {
      if exists at :: Denotes(address, at) {
        DenotesEnds(address);
      }
      return Err(Malformed);
    }
    var i := 0;
    if address[i] == '$' {
      i := i + 1;
    }
    var columnStart := i;
    while i < |address| && IsLetter(address[i])
      invariant columnStart <= i <= |address|
      invariant AllLetters(address[columnStart..i])
    {
      assert address[columnStart..i + 1] == address[columnStart..i] + [address[i]];
      i := i + 1;
    }
    if i == columnStart {
      if exists at :: Denotes(address, at) {
        DenotesEnds(address);
      }
      return Err(Malformed);
    }
    var letterEnd := i;
    var column := Upper(address[columnStart..i]);
    if i < |address| && address[i] == '$' {
      i := i + 1;
    }
    ScanMeaning(address, columnStart, letterEnd, i);
    if i == |address| {
      return Err(Malformed);
    }
    var columnNumber :- ReadColumn(column);
    var row :- ReadRow(address[i..]);
    return Ok(column + Decimal(row));
  }

  /** The one way to cut the address is the scan's. */
  lemma ScanIsSplit(address: string, lead: string, letters: string, middle: string, digits: string)
    requires address == lead + letters + middle + digits
    requires Anchor(lead) && AllLetters(letters) && letters != [] && Anchor(middle)
    requires middle + digits == "" || !IsLetter((middle + digits)[0])
    requires middle == "" && digits != "" ==> digits[0] != '$'
    ensures forall at :: Denotes(address, at) <==>
              digits != "" && AllDigits(digits) && OnSheet(at)
                  && at == Coordinate(ColumnNumber(letters), DecimalValue(digits))
  {
    forall at ensures Denotes(address, at) ==>
        digits != "" && AllDigits(digits) && at == Coordinate(ColumnNumber(letters), DecimalValue(digits))
    {
      if Denotes(address, at) {
        var a, b, c, d :| Splits(address, a, b, c, d) && ColumnNumber(b) == at.column && DecimalValue(d) == at.row;
        SplitUnique(address, lead, letters, middle, digits, a, b, c, d);
      }
    }
    if digits != "" && AllDigits(digits) {
      assert Splits(address, lead, letters, middle, digits);
    }
  }

  /** Whatever the scan cut the address into decides what the address means. */
  lemma ScanMeaning(address: string, start: nat, letterEnd: nat, rowStart: nat)
    requires start < letterEnd <= rowStart <= |address|
    requires start == if address[0] == '$' then 1 else 0
    requires AllLetters(address[start..letterEnd])
    requires letterEnd < |address| ==> !IsLetter(address[letterEnd])
    requires rowStart == if letterEnd < |address| && address[letterEnd] == '$' then letterEnd + 1 else letterEnd
    ensures var letters, digits := address[start..letterEnd], address[rowStart..];
            var column := Upper(letters);
            && AllLetters(column) && Upper(column) == column
            && ((exists at :: Denotes(address, at)) <==>
                && digits != "" && AllDigits(digits)
                && OnSheet(Coordinate(ColumnNumber(column), DecimalValue(digits))))
            && (digits != "" && AllDigits(digits) && OnSheet(Coordinate(ColumnNumber(column), DecimalValue(digits)))
                ==> Normalized(address) == Some(column + Decimal(DecimalValue(digits))))
  {
    var lead, letters, middle, digits := address[..start], address[start..letterEnd], address[letterEnd..rowStart],
        address[rowStart..];
    assert address == lead + letters + middle + digits;
    UpperSameNumber(letters);
    ScanIsSplit(address, lead, letters, middle, digits);
    if digits != "" && AllDigits(digits) {
      var at := Coordinate(ColumnNumber(letters), DecimalValue(digits));
      assert CellName(at) == Upper(letters) + Decimal(DecimalValue(digits)) by { ColumnNumberName(letters); }
      assert OnSheet(at) ==> Denotes(address, at);
    }
  }

  lemma NotSpace(c: char)
    ensures IsLetter(c) || IsDigit(c) || c == '$' ==> !IsSpace(c)
  {
  }

  lemma SplitEnds(address: string, a: string, b: string, c: string, d: string)
    requires Splits(address, a, b, c, d)
    ensures |a| < |address| && IsLetter(address[|a|]) && IsDigit(address[|address| - 1])
    ensures a == "" || (a == "$" && address[0] == '$')
  {
    assert address == a + (b + (c + d)) && address == (a + b + c) + d;
  }

  /** What every A1 reference looks like at its two ends. */
  lemma DenotesEnds(address: string)
    requires exists at :: Denotes(address, at)
    ensures address != "" && !IsSpace(address[0]) && !IsSpace(address[|address| - 1])
    ensures var start := if address[0] == '$' then 1 else 0; start < |address| && IsLetter(address[start])
  {
    var at :| Denotes(address, at);
    var a, b, c, d :| Splits(address, a, b, c, d);
    SplitEnds(address, a, b, c, d);
    NotSpace(address[0]);
    NotSpace(address[|address| - 1]);
  }

  lemma {:induction false} UpperSameNumber(s: string)
    requires AllLetters(s)
    ensures AllLetters(Upper(s)) && Upper(Upper(s)) == Upper(s)
    ensures ColumnNumber(Upper(s)) == ColumnNumber(s)
  {
    if s != [] {
      UpperSameNumber(s[..|s| - 1]);
      assert Upper(s)[..|s| - 1] == Upper(s[..|s| - 1]);
    }
  }
}
