/** From the text of a payroll CSV to the rows of a draft run. */
module PayrollIntake {
  import opened Prelude
  import opened Decimal
  import opened Amounts
  import P = Positional
  import W = PayrollWorker

  const MAX_ROWS: nat := 10_000

  // ---------- Text ----------

  /** The white space that String.trim removes. */
  predicate IsSpace(c: char) {
    || 9 as char <= c <= 13 as char || c == ' ' || c == '\U{00A0}' || c == '\U{1680}'
    || '\U{2000}' <= c <= '\U{200A}' || c == '\U{2028}' || c == '\U{2029}' || c == '\U{202F}' || c == '\U{205F}'
    || c == '\U{3000}' || c == '\U{FEFF}'
  }

  function TrimStart(s: string): string {
    if s != [] && IsSpace(s[0]) then TrimStart(s[1..]) else s
  }

  function TrimEnd(s: string): string {
    if s != [] && IsSpace(s[|s| - 1]) then TrimEnd(s[..|s| - 1]) else s
  }

  function Trim(s: string): string {
    TrimEnd(TrimStart(s))
  }

  /** A carriage return just before a line feed belongs to the line break. */
  function WithoutCr(line: string): string {
    if line != [] && line[|line| - 1] == '\r' then line[..|line| - 1] else line
  }

  function Lines(s: string): (lines: seq<string>)
    ensures |lines| >= 1
  {
    var parts := SplitOn(s, '\n');
    seq(|parts|, i requires 0 <= i < |parts| => if i < |parts| - 1 then WithoutCr(parts[i]) else parts[i])
  }

  function Column(line: string, k: nat): string {
    var cols := SplitOn(line, ',');
    if k < |cols| then Trim(cols[k]) else ""
  }

  // ---------- Parsing ----------

  datatype ParsedRow = ParsedRow(rowIndex: nat, recipientInput: string, amount: string)

  /** The first two columns of every line that is not blank. */
  function Contents(lines: seq<string>): seq<(string, string)> {
    if lines == [] then []
    else
      var line := Trim(lines[|lines| - 1]);
      Contents(lines[..|lines| - 1]) + if line == "" then [] else [(Column(line, 0), Column(line, 1))]
  }

  /** The first line with content is a header when its amount column is not an amount. */
  function Body(contents: seq<(string, string)>): seq<(string, string)> {
    if contents != [] && !IsIntakeAmount(contents[0].1) then contents[1..] else contents
  }

  function Numbered(cells: seq<(string, string)>): seq<ParsedRow> {
    seq(|cells|, i requires 0 <= i < |cells| => ParsedRow(i, cells[i].0, cells[i].1))
  }

  /** A line with content becomes the next row, unless it is the first and a header. */
  lemma OneMoreRow(contents: seq<(string, string)>, cell: (string, string))
    ensures var rows := Numbered(Body(contents));
            Numbered(Body(contents + [cell]))
            == if contents == [] && !IsIntakeAmount(cell.1) then [] else rows + [ParsedRow(|rows|, cell.0, cell.1)]
  {
    if contents == [] {
      assert contents + [cell] == [cell] && [cell][1..] == [];
    } else if !IsIntakeAmount(contents[0].1) {
      assert (contents + [cell])[1..] == contents[1..] + [cell];
    }
  }

  lemma NextLine(lines: seq<string>, k: nat)
    requires k < |lines|
    ensures Contents(lines[..k + 1]) == Contents(lines[..k]) + LineContents(lines[k])
  {
    assert lines[..k + 1][..k] == lines[..k];
    ContentsLast(lines[..k + 1]);
  }

  method ParseCsv(csv: string) returns (rows: seq<ParsedRow>)
    ensures rows == Numbered(Body(Contents(Lines(csv))))
  {
    rows := [];
    var rowIndex := 0;
    var firstContentSeen := false;
    var lines := Lines(csv);
    ghost var contents: seq<(string, string)> := [];
    for k := 0 to |lines|
      invariant contents == Contents(lines[..k])
      invariant rowIndex == |rows| && rows == Numbered(Body(contents))
      invariant firstContentSeen <==> contents != []
    {
      NextLine(lines, k);
      var line := Trim(lines[k]);
      if line == "" {
        continue;
      }
      var recipientInput, amount := Column(line, 0), Column(line, 1);
      OneMoreRow(contents, (recipientInput, amount));
      contents := contents + [(recipientInput, amount)];
      if !firstContentSeen {
        firstContentSeen := true;
        if !IsIntakeAmount(amount) {
          continue;
        }
      }
      rows := rows + [ParsedRow(rowIndex, recipientInput, amount)];
      rowIndex := rowIndex + 1;
    }
    assert lines[..|lines|] == lines;
  }

  // ---------- A written sheet is read back ----------

  predicate CleanCell(s: string) {
    Trim(s) == s && ',' !in s && '\n' !in s
  }

  function Sheet(cells: seq<(string, string)>): string {
    if cells == [] then ""
    else cells[0].0 + "," + cells[0].1 + "\n" + Sheet(cells[1..])
  }

  lemma SplitOnce(a: string, b: string, c: char)
    requires c !in a
    ensures SplitOn(a + [c] + b, c) == [a] + SplitOn(b, c) && SplitOn(a, c) == [a]
  {
    IndexOfAfter(a, b, c);
    assert (a + [c] + b)[..|a|] == a && (a + [c] + b)[|a| + 1..] == b;
  }

  lemma TrimEnds(s: string)
    ensures Trim(s) == s <==> (s != [] ==> !IsSpace(s[0]) && !IsSpace(s[|s| - 1]))
  {
    TrimShortens(s);
    if s != [] && IsSpace(s[0]) {
      TrimShortens(s[1..]);
      EndShortens(TrimStart(s));
    }
  }

  lemma {:induction false} EndShortens(s: string)
    ensures |TrimEnd(s)| <= |s|
    ensures s != [] && IsSpace(s[|s| - 1]) ==> |TrimEnd(s)| < |s|
  {
    if s != [] && IsSpace(s[|s| - 1]) {
      EndShortens(s[..|s| - 1]);
    }
  }

  lemma {:induction false} TrimShortens(s: string)
    ensures |TrimStart(s)| <= |s| && |TrimEnd(s)| <= |s|
    ensures s != [] && IsSpace(s[|s| - 1]) ==> |TrimEnd(s)| < |s|
  {
    EndShortens(s);
    if s != [] && IsSpace(s[0]) {
      TrimShortens(s[1..]);
    }
  }

  lemma SheetLine(cell: (string, string))
    requires CleanCell(cell.0) && CleanCell(cell.1)
    ensures var line := cell.0 + "," + cell.1;
            '\n' !in line && Trim(WithoutCr(line)) == line && line != "" && Column(line, 0) == cell.0
            && Column(line, 1) == cell.1
  {
    var line := cell.0 + "," + cell.1;
    TrimEnds(cell.0);
    TrimEnds(cell.1);
    TrimEnds(line);
    SplitOnce(cell.0, cell.1, ',');
    SplitOnce(cell.1, "", ',');
    assert WithoutCr(line) == line;
  }

  predicate AllSpace(s: string) {
    forall i :: 0 <= i < |s| ==> IsSpace(s[i])
  }

  /** The text with its white space at both ends. */
  predicate Padded(s: string, a: string, t: string, b: string) {
    AllSpace(a) && AllSpace(b) && s == a + t + b && (t != [] ==> !IsSpace(t[0]) && !IsSpace(t[|t| - 1]))
  }

  lemma {:induction false} StartStripped(s: string) returns (a: string)
    ensures AllSpace(a) && s == a + TrimStart(s) && (TrimStart(s) != [] ==> !IsSpace(TrimStart(s)[0]))
  {
    if s != [] && IsSpace(s[0]) {
      a := StartStripped(s[1..]);
      a := [s[0]] + a;
    } else {
      a := [];
    }
  }

  lemma {:induction false} EndStripped(s: string) returns (b: string)
    ensures AllSpace(b) && s == TrimEnd(s) + b && (TrimEnd(s) != [] ==> !IsSpace(TrimEnd(s)[|TrimEnd(s)| - 1]))
  {
    if s != [] && IsSpace(s[|s| - 1]) {
      b := EndStripped(s[..|s| - 1]);
      b := b + [s[|s| - 1]];
    } else {
      b := [];
    }
  }

  lemma {:induction false} StartOf(a: string, t: string)
    requires AllSpace(a) && (t != [] ==> !IsSpace(t[0]))
    ensures TrimStart(a + t) == t
  {
    if a == [] {
      assert a + t == t;
    } else {
      assert (a + t)[1..] == a[1..] + t;
      StartOf(a[1..], t);
    }
  }

  lemma {:induction false} EndOf(t: string, b: string)
    requires AllSpace(b) && (t != [] ==> !IsSpace(t[|t| - 1]))
    ensures TrimEnd(t + b) == t
  {
    if b == [] {
      assert t + b == t;
    } else {
      assert (t + b)[..|t + b| - 1] == t + b[..|b| - 1];
      EndOf(t, b[..|b| - 1]);
    }
  }

  /** Trimming takes the white space at both ends and nothing else. */
  lemma TrimIff(s: string, t: string)
    ensures Trim(s) == t <==> exists a, b :: Padded(s, a, t, b)
  {
    if Trim(s) == t {
      var a := StartStripped(s);
      var b := EndStripped(TrimStart(s));
      assert t != [] ==> t[0] == TrimStart(s)[0];
      assert s == a + t + b;
      assert Padded(s, a, t, b);
    }
    forall a, b | Padded(s, a, t, b) ensures Trim(s) == t {
      PaddedTrims(s, a, t, b);
    }
  }

  lemma PaddedTrims(s: string, a: string, t: string, b: string)
    requires Padded(s, a, t, b)
    ensures Trim(s) == t
  {
    if t == [] {
      assert s == (a + b) + [];
      StartOf(a + b, []);
    } else {
      assert s == a + (t + b);
      StartOf(a, t + b);
      EndOf(t, b);
    }
  }

  /** The first two columns of a line are what stands before its first two commas, trimmed; what follows is ignored. */
  lemma ColumnsAre(line: string, first: string, second: string, more: string)
    requires ',' !in first && ',' !in second && line == first + "," + second + more && (more != "" ==> more[0] == ',')
    ensures Column(line, 0) == Trim(first) && Column(line, 1) == Trim(second)
  {
    assert line == first + [','] + (second + more);
    SplitOnce(first, second + more, ',');
    FirstPart(second, more);
  }

  lemma FirstPart(part: string, more: string)
    requires ',' !in part && (more != "" ==> more[0] == ',')
    ensures SplitOn(part + more, ',')[0] == part
  {
    if more == "" {
      assert part + more == part;
      SplitOnce(part, "", ',');
    } else {
      assert part + more == part + [','] + more[1..];
      SplitOnce(part, more[1..], ',');
    }
  }

  /** A line without a comma has one column. */
  lemma OneColumn(line: string)
    requires ',' !in line
    ensures Column(line, 0) == Trim(line) && Column(line, 1) == ""
  {
    SplitOnce(line, "", ',');
  }

  /** The cells a line yields: none when it is blank. */
  function LineContents(line: string): seq<(string, string)> {
    var trimmed := Trim(line);
    if trimmed == "" then [] else [(Column(trimmed, 0), Column(trimmed, 1))]
  }

  lemma Regroup<T>(a: seq<T>, b: seq<T>, c: seq<T>)
    ensures (a + b) + c == a + (b + c)
  {
  }

  lemma ContentsLast(lines: seq<string>)
    requires lines != []
    ensures Contents(lines) == Contents(lines[..|lines| - 1]) + LineContents(lines[|lines| - 1])
  {
  }

  lemma {:induction false} ContentsFirst(lines: seq<string>)
    requires lines != []
    ensures Contents(lines) == LineContents(lines[0]) + Contents(lines[1..])
  {
    var n := |lines| - 1;
    var front := lines[..n];
    ContentsLast(lines);
    if n == 0 {
      assert front == [] && lines[1..] == [];
    } else {
      ContentsFirst(front);
      ContentsLast(lines[1..]);
      assert lines[1..][..n - 1] == front[1..] && lines[1..][n - 1] == lines[n] && front[0] == lines[0];
      Regroup(LineContents(lines[0]), Contents(front[1..]), LineContents(lines[n]));
    }
  }

  lemma LinesPrepend(line: string, rest: string)
    requires '\n' !in line
    ensures Lines(line + ['\n'] + rest) == [WithoutCr(line)] + Lines(rest)
  {
    SplitOnce(line, rest, '\n');
  }

  lemma EmptySheet()
    ensures Contents(Lines("")) == []
  {
    assert SplitOn("", '\n') == [""];
    assert Lines("") == [""];
    assert [""][..0] == [];
  }

  lemma {:induction false} SheetContents(cells: seq<(string, string)>)
    requires forall i :: 0 <= i < |cells| ==> CleanCell(cells[i].0) && CleanCell(cells[i].1)
    ensures Contents(Lines(Sheet(cells))) == cells
  {
    if cells == [] {
      EmptySheet();
    } else {
      var line, rest := cells[0].0 + "," + cells[0].1, Sheet(cells[1..]);
      SheetLine(cells[0]);
      SheetContents(cells[1..]);
      assert Sheet(cells) == line + ['\n'] + rest;
      LinesPrepend(line, rest);
      var lines := Lines(Sheet(cells));
      assert lines[0] == WithoutCr(line) && lines[1..] == Lines(rest);
      ContentsFirst(lines);
      assert (Column(line, 0), Column(line, 1)) == cells[0];
      assert cells == [cells[0]] + cells[1..];
    }
  }

  /**
   A sheet of clean cells is read back row by row, with or without a header line: all rows when the first
   amount is an amount, all but the first otherwise.
   */
  lemma SheetIsReadBack(cells: seq<(string, string)>)
    requires forall i :: 0 <= i < |cells| ==> CleanCell(cells[i].0) && CleanCell(cells[i].1)
    ensures cells != [] ==>
      Body(Contents(Lines(Sheet(cells)))) == if IsIntakeAmount(cells[0].1) then cells else cells[1..]
  {
    SheetContents(cells);
  }

  // ---------- Validation ----------

  datatype RowError = UnknownRecipient | MissingRecipient | InvalidAmountError | DuplicateRecipient

  datatype PreviewItem = PreviewItem(
    rowIndex: nat, recipientInput: string, resolvedAddress: Option<string>, amount: string, valid: bool,
    error: Option<RowError>)

  function LowerChar(c: char): char {
    if 'A' <= c <= 'Z' then (c as int + 32) as char else c
  }

  function LowerCase(s: string): string {
    seq(|s|, i requires 0 <= i < |s| => LowerChar(s[i]))
  }

  predicate IsEvmAddress(s: string) {
    |s| == 42 && s[0] == '0' && s[1] == 'x' && P.IsHex(s[2..])
  }

  function HandleKey(s: string): string {
    LowerCase(if s != [] && s[0] == '@' then s[1..] else s)
  }

  /** A raw address, or a handle that the directory knows. */
  function Resolve(input: string, handles: map<string, string>): Result<string, RowError> {
    if IsEvmAddress(input) then Ok(LowerCase(input))
    else if input == "" then Err(MissingRecipient)
    else if HandleKey(input) in handles then Ok(handles[HandleKey(input)])
    else Err(UnknownRecipient)
  }

  /** The same characters, but for letters, which are small. */
  predicate Lowered(text: string, lower: string) {
    |lower| == |text|
    && forall i :: 0 <= i < |text| ==>
         if 'A' <= text[i] <= 'Z' then lower[i] as int == text[i] as int + 32 else lower[i] == text[i]
  }

  lemma LowerCaseIsLowered(text: string, lower: string)
    ensures Lowered(text, lower) <==> lower == LowerCase(text)
  {
  }

  /** An address is kept as the same number in small letters. */
  predicate SameAddress(input: string, address: string) {
    IsEvmAddress(input) && IsEvmAddress(address) && P.HexValue(input[2..]) == P.HexValue(address[2..])
    && forall i :: 0 <= i < |address| ==> !('A' <= address[i] <= 'Z')
  }

  lemma AddressResolves(input: string, handles: map<string, string>)
    requires IsEvmAddress(input)
    ensures Resolve(input, handles).Ok? && SameAddress(input, Resolve(input, handles).value)
  {
    var lower := LowerCase(input);
    assert forall i :: 0 <= i < |input[2..]| ==> P.HexDigit(lower[2..][i]) == P.HexDigit(input[2..][i]);
    assert P.HexDigits(lower[2..]) == P.HexDigits(input[2..]);
  }

  /** Two addresses are one recipient exactly when they are the same number. */
  lemma SameRecipientIff(a: string, b: string, handles: map<string, string>)
    requires IsEvmAddress(a) && IsEvmAddress(b)
    ensures Resolve(a, handles) == Resolve(b, handles) <==> P.HexValue(a[2..]) == P.HexValue(b[2..])
  {
    AddressResolves(a, handles);
    AddressResolves(b, handles);
    if P.HexValue(a[2..]) == P.HexValue(b[2..]) {
      var x, y := Resolve(a, handles).value, Resolve(b, handles).value;
      P.ValueFixed(P.HexDigits(x[2..]), 16);
      P.ValueFixed(P.HexDigits(y[2..]), 16);
      SmallDigits(x[2..], y[2..]);
      assert x == x[..2] + x[2..] && y == y[..2] + y[2..] && x[..2] == y[..2];
    }
  }

  lemma SmallDigits(x: string, y: string)
    requires P.IsHex(x) && P.IsHex(y) && P.HexDigits(x) == P.HexDigits(y)
    requires forall i :: 0 <= i < |x| ==> !('A' <= x[i] <= 'Z')
    requires forall i :: 0 <= i < |y| ==> !('A' <= y[i] <= 'Z')
    ensures x == y
  {
    assert |x| == |P.HexDigits(x)| == |y|;
    forall i | 0 <= i < |x| ensures x[i] == y[i] {
      assert P.HexDigits(x)[i] == P.HexDigits(y)[i];
      SmallDigit(x[i], y[i]);
    }
  }

  lemma SmallDigit(c: char, d: char)
    requires P.HexDigit(c).Some? && P.HexDigit(c) == P.HexDigit(d) && !('A' <= c <= 'Z') && !('A' <= d <= 'Z')
    ensures c == d
  {
  }

  /** What a row's recipient comes to: an address as it is but for case, or the directory's entry of the handle. */
  ghost predicate RecipientSays(item: PreviewItem, handles: map<string, string>) {
    var input := item.recipientInput;
    if IsEvmAddress(input) then
      item.resolvedAddress.Some? && SameAddress(input, item.resolvedAddress.value)
      && item.error !in {Some(MissingRecipient), Some(UnknownRecipient)}
    else if input == "" then item.error == Some(MissingRecipient) && item.resolvedAddress.None?
    else
      var handle := if input[0] == '@' then input[1..] else input;
      forall key :: Lowered(handle, key) ==>
        if key in handles then
          item.resolvedAddress == Some(handles[key]) && item.error !in {Some(MissingRecipient), Some(UnknownRecipient)}
        else item.error == Some(UnknownRecipient) && item.resolvedAddress.None?
  }

  lemma PreviewResolves(rows: seq<ParsedRow>, handles: map<string, string>, i: nat, item: PreviewItem)
    requires i < |rows| && Previews(rows, handles, i, item)
    ensures RecipientSays(item, handles)
  {
    var input := item.recipientInput;
    if IsEvmAddress(input) {
      AddressResolves(input, handles);
    } else if input != "" {
      var handle := if input[0] == '@' then input[1..] else input;
      forall key | Lowered(handle, key) ensures key == HandleKey(input) {
        LowerCaseIsLowered(handle, key);
      }
    }
  }

  predicate PaysAddress(item: PreviewItem) {
    item.valid && IsEvmAddress(item.recipientInput)
  }

  /** Every recipient is what its text says, and no two valid rows pay one address, however it is written. */
  ghost predicate RecipientsRight(items: seq<PreviewItem>, handles: map<string, string>) {
    && (forall i :: 0 <= i < |items| ==> RecipientSays(items[i], handles) && ErrorSays(items, i))
    && forall i, j :: 0 <= i < j < |items| && PaysAddress(items[i]) && PaysAddress(items[j]) ==>
         P.HexValue(items[i].recipientInput[2..]) != P.HexValue(items[j].recipientInput[2..])
  }

  /** Every row's recipient is what its text says, and no address is paid twice. */
  /** An earlier row is valid and goes to the same recipient. */
  ghost predicate TakenByValid(items: seq<PreviewItem>, i: nat)
    requires i < |items|
  {
    exists j :: 0 <= j < i && items[j].valid && items[j].resolvedAddress == items[i].resolvedAddress
  }

  /** Which rows are valid, and which of the last two errors the others have. */
  ghost predicate ErrorSays(items: seq<PreviewItem>, i: nat)
    requires i < |items|
  {
    var item := items[i];
    var payable := item.resolvedAddress.Some? && IsIntakeAmount(item.amount) && IsPositive(item.amount);
    && (item.valid <==> payable && !TakenByValid(items, i))
    && (item.valid <==> item.error.None?)
    && (item.error == Some(InvalidAmountError) <==> item.resolvedAddress.Some? && !payable)
    && (item.error == Some(DuplicateRecipient) <==> payable && TakenByValid(items, i))
  }

  /** The first payable row of a recipient is valid. */
  lemma {:induction false} FirstTakerIsValid(rows: seq<ParsedRow>, handles: map<string, string>, items: seq<PreviewItem>,
                                             j: nat)
    returns (first: nat)
    requires |items| == |rows| && AllPreview(rows, handles, items) && j < |items| && Payable(rows[j], handles)
    ensures first <= j && items[first].valid && items[first].resolvedAddress == items[j].resolvedAddress
  {
    assert Previews(rows, handles, j, items[j]);
    if FirstForRecipient(rows, handles, j) {
      first := j;
    } else {
      var k :| 0 <= k < j && Payable(rows[k], handles)
               && Resolve(rows[k].recipientInput, handles) == Resolve(rows[j].recipientInput, handles);
      assert Previews(rows, handles, k, items[k]);
      first := FirstTakerIsValid(rows, handles, items, k);
    }
  }

  lemma ErrorsAre(rows: seq<ParsedRow>, handles: map<string, string>, items: seq<PreviewItem>, i: nat)
    requires |items| == |rows| && AllPreview(rows, handles, items) && i < |items|
    ensures ErrorSays(items, i)
  {
    assert Previews(rows, handles, i, items[i]);
    if Resolve(rows[i].recipientInput, handles).Ok? {
      if !FirstForRecipient(rows, handles, i) {
        var k :| 0 <= k < i && Payable(rows[k], handles)
                 && Resolve(rows[k].recipientInput, handles) == Resolve(rows[i].recipientInput, handles);
        assert Previews(rows, handles, k, items[k]);
        var j := FirstTakerIsValid(rows, handles, items, k);
        assert TakenByValid(items, i);
      } else {
        forall j | 0 <= j < i && items[j].valid ensures items[j].resolvedAddress != items[i].resolvedAddress {
          assert Previews(rows, handles, j, items[j]);
          assert Payable(rows[j], handles);
        }
      }
    }
  }

  lemma RecipientsAre(rows: seq<ParsedRow>, handles: map<string, string>, items: seq<PreviewItem>)
    requires |items| == |rows| && AllPreview(rows, handles, items)
    ensures RecipientsRight(items, handles)
  {
    forall i | 0 <= i < |items| ensures RecipientSays(items[i], handles) && ErrorSays(items, i) {
      assert Previews(rows, handles, i, items[i]);
      ErrorsAre(rows, handles, items, i);
      PreviewResolves(rows, handles, i, items[i]);
    }
    forall i, j | 0 <= i < j < |items| && PaysAddress(items[i]) && PaysAddress(items[j])
      ensures P.HexValue(items[i].recipientInput[2..]) != P.HexValue(items[j].recipientInput[2..])
    {
      assert Previews(rows, handles, i, items[i]) && Previews(rows, handles, j, items[j]);
      assert Payable(rows[i], handles);
      SameRecipientIff(items[i].recipientInput, items[j].recipientInput, handles);
    }
  }

  /** Some digit of the amount is not zero. */
  predicate IsPositive(amount: string) {
    exists i :: 0 <= i < |amount| && '1' <= amount[i] <= '9'
  }

  /** What a row must be on its own: a known recipient and a positive amount. */
  predicate Payable(row: ParsedRow, handles: map<string, string>) {
    Resolve(row.recipientInput, handles).Ok? && IsIntakeAmount(row.amount) && IsPositive(row.amount)
  }

  /** No earlier payable row has this row's recipient. */
  ghost predicate FirstForRecipient(rows: seq<ParsedRow>, handles: map<string, string>, i: nat)
    requires i < |rows| && Resolve(rows[i].recipientInput, handles).Ok?
  {
    forall j :: 0 <= j < i && Payable(rows[j], handles) ==>
      Resolve(rows[j].recipientInput, handles) != Resolve(rows[i].recipientInput, handles)
  }

  ghost function ErrorOf(rows: seq<ParsedRow>, handles: map<string, string>, i: nat): Option<RowError>
    requires i < |rows|
  {
    var resolved := Resolve(rows[i].recipientInput, handles);
    if resolved.Err? then Some(resolved.error)
    else if !IsIntakeAmount(rows[i].amount) || !IsPositive(rows[i].amount) then Some(InvalidAmountError)
    else if !FirstForRecipient(rows, handles, i) then Some(DuplicateRecipient)
    else None
  }

  ghost predicate Previews(rows: seq<ParsedRow>, handles: map<string, string>, i: nat, item: PreviewItem)
    requires i < |rows|
  {
    var resolved := Resolve(rows[i].recipientInput, handles);
    && item.rowIndex == rows[i].rowIndex && item.recipientInput == rows[i].recipientInput
    && item.amount == rows[i].amount && item.error == ErrorOf(rows, handles, i)
    && item.valid == item.error.None?
    && item.resolvedAddress == if resolved.Ok? then Some(resolved.value) else None
  }

  /** The row is payable and goes to this recipient. */
  predicate Takes(row: ParsedRow, handles: map<string, string>, recipient: string) {
    Payable(row, handles) && Resolve(row.recipientInput, handles) == Ok(recipient)
  }

  ghost predicate TakenBefore(rows: seq<ParsedRow>, handles: map<string, string>, i: nat, recipient: string)
    requires i <= |rows|
  {
    exists j :: 0 <= j < i && Takes(rows[j], handles, recipient)
  }

  /** The recipients of the payable rows so far. */
  ghost predicate Seen(rows: seq<ParsedRow>, handles: map<string, string>, i: nat, seen: set<string>)
    requires i <= |rows|
  {
    forall x :: x in seen <==> TakenBefore(rows, handles, i, x)
  }

  lemma TakenNext(rows: seq<ParsedRow>, handles: map<string, string>, i: nat, x: string)
    requires i < |rows|
    ensures TakenBefore(rows, handles, i + 1, x) <==> TakenBefore(rows, handles, i, x) || Takes(rows[i], handles, x)
  {
    if TakenBefore(rows, handles, i, x) {
      var j :| 0 <= j < i && Takes(rows[j], handles, x);
      assert Takes(rows[j], handles, x) && j < i + 1;
    }
  }

  lemma FirstIffNotTaken(rows: seq<ParsedRow>, handles: map<string, string>, i: nat)
    requires i < |rows| && Resolve(rows[i].recipientInput, handles).Ok?
    ensures FirstForRecipient(rows, handles, i)
            <==> !TakenBefore(rows, handles, i, Resolve(rows[i].recipientInput, handles).value)
  {
    var a := Resolve(rows[i].recipientInput, handles).value;
    if TakenBefore(rows, handles, i, a) {
      var j :| 0 <= j < i && Takes(rows[j], handles, a);
    } else {
      forall j | 0 <= j < i && Payable(rows[j], handles)
        ensures Resolve(rows[j].recipientInput, handles) != Resolve(rows[i].recipientInput, handles)
      {
        assert !Takes(rows[j], handles, a);
      }
    }
  }

  lemma SeenDecides(rows: seq<ParsedRow>, handles: map<string, string>, i: nat, seen: set<string>)
    requires i < |rows| && Seen(rows, handles, i, seen) && Payable(rows[i], handles)
    ensures var a := Resolve(rows[i].recipientInput, handles).value;
            && (a !in seen <==> FirstForRecipient(rows, handles, i))
            && Seen(rows, handles, i + 1, seen + {a})
  {
    var a := Resolve(rows[i].recipientInput, handles).value;
    FirstIffNotTaken(rows, handles, i);
    forall x ensures x in seen + {a} <==> TakenBefore(rows, handles, i + 1, x) {
      TakenNext(rows, handles, i, x);
    }
  }

  lemma SeenSkips(rows: seq<ParsedRow>, handles: map<string, string>, i: nat, seen: set<string>)
    requires i < |rows| && Seen(rows, handles, i, seen) && !Payable(rows[i], handles)
    ensures Seen(rows, handles, i + 1, seen)
  {
    forall x ensures x in seen <==> TakenBefore(rows, handles, i + 1, x) {
      TakenNext(rows, handles, i, x);
    }
  }

  /** The checks on one row, in order, given the recipients already taken. */
  function Preview(row: ParsedRow, handles: map<string, string>, seen: set<string>): PreviewItem {
    var item := PreviewItem(row.rowIndex, row.recipientInput, None, row.amount, false, None);
    match Resolve(row.recipientInput, handles)
    case Err(error) => item.(error := Some(error))
    case Ok(address) =>
      var known := item.(resolvedAddress := Some(address));
      if !IsIntakeAmount(row.amount) || !IsPositive(row.amount) then known.(error := Some(InvalidAmountError))
      else if address in seen then known.(error := Some(DuplicateRecipient))
      else known.(valid := true)
  }

  lemma PreviewStep(rows: seq<ParsedRow>, handles: map<string, string>, i: nat, seen: set<string>)
    requires i < |rows| && Seen(rows, handles, i, seen)
    ensures var item := Preview(rows[i], handles, seen);
            && Previews(rows, handles, i, item)
            && (item.valid ==> item.resolvedAddress.Some?)
            && Seen(rows, handles, i + 1, if item.valid then seen + {item.resolvedAddress.value} else seen)
  {
    if Payable(rows[i], handles) {
      SeenDecides(rows, handles, i, seen);
      var a := Resolve(rows[i].recipientInput, handles).value;
      if a in seen {
        assert seen + {a} == seen;
      }
    } else {
      SeenSkips(rows, handles, i, seen);
    }
  }

  /** The first rows have their previews. */
  ghost predicate AllPreview(rows: seq<ParsedRow>, handles: map<string, string>, items: seq<PreviewItem>) {
    |items| <= |rows| && forall i :: 0 <= i < |items| ==> Previews(rows, handles, i, items[i])
  }

  lemma AllPreviewSnoc(rows: seq<ParsedRow>, handles: map<string, string>, items: seq<PreviewItem>, item: PreviewItem)
    requires AllPreview(rows, handles, items) && |items| < |rows| && Previews(rows, handles, |items|, item)
    ensures AllPreview(rows, handles, items + [item])
  {
  }

  /** Each row is checked on its own and against the recipients of the valid rows before it. */
  method ValidateRows(rows: seq<ParsedRow>, handles: map<string, string>) returns (items: seq<PreviewItem>)
    ensures |items| == |rows| && AllPreview(rows, handles, items)
    ensures RecipientsRight(items, handles)
  {
    var seen: set<string> := {};
    items := [];
    for i := 0 to |rows|
      invariant |items| == i && Seen(rows, handles, i, seen)
      invariant AllPreview(rows, handles, items)
    {
      PreviewStep(rows, handles, i, seen);
      var item := Preview(rows[i], handles, seen);
      if item.valid {
        seen := seen + {item.resolvedAddress.value};
      }
      AllPreviewSnoc(rows, handles, items, item);
      items := items + [item];
    }
    RecipientsAre(rows, handles, items);
  }

  function ToDraft(items: seq<PreviewItem>): (draft: seq<W.DraftRow>)
    ensures |draft| == |items|
  {
    seq(|items|, i requires 0 <= i < |items| =>
      W.DraftRow(Units(items[i].amount), items[i].resolvedAddress, items[i].valid))
  }

  function ValidAmounts(items: seq<PreviewItem>): seq<string> {
    if items == [] then []
    else
      var last := items[|items| - 1];
      ValidAmounts(items[..|items| - 1]) + if last.valid then [last.amount] else []
  }

  /** What the worker relies on: recipients of valid rows are known and pairwise distinct. */
  lemma PreviewsAreDraft(rows: seq<ParsedRow>, handles: map<string, string>, items: seq<PreviewItem>)
    requires |items| == |rows| && AllPreview(rows, handles, items)
    ensures W.Draft(ToDraft(items))
  {
    var draft := ToDraft(items);
    forall i, j | 0 <= i < j < |draft| && draft[i].valid && draft[j].valid ensures draft[i].address != draft[j].address {
      assert Previews(rows, handles, i, items[i]) && Previews(rows, handles, j, items[j]);
      assert Payable(rows[i], handles);
    }
  }

  lemma {:induction false} DraftTotalIsSum(items: seq<PreviewItem>)
    ensures W.DraftTotal(ToDraft(items)) == UnitsSum(ValidAmounts(items))
  {
    if items != [] {
      var front, last := items[..|items| - 1], items[|items| - 1];
      DraftTotalIsSum(front);
      assert ToDraft(items)[..|front|] == ToDraft(front);
      if last.valid {
        var amounts := ValidAmounts(items);
        assert amounts[..|amounts| - 1] == ValidAmounts(front);
      } else {
        assert ValidAmounts(items) == ValidAmounts(front);
      }
    }
  }

  lemma {:induction false} ValidAmountsAre(items: seq<PreviewItem>, i: nat)
    requires i < |ValidAmounts(items)|
    ensures exists j :: 0 <= j < |items| && items[j].valid && items[j].amount == ValidAmounts(items)[i]
  {
    var front := items[..|items| - 1];
    if i < |ValidAmounts(front)| {
      ValidAmountsAre(front, i);
      var j :| 0 <= j < |front| && front[j].valid && front[j].amount == ValidAmounts(front)[i];
      assert items[j] == front[j];
    }
  }

  datatype IntakeError = EmptyPayroll | TooManyRows

  datatype PayrollDraft = PayrollDraft(items: seq<PreviewItem>, itemCount: nat, totalAmount: string, ready: bool)

  /** What the draft of a sheet holds: every row as it was written, judged, counted and summed. */
  ghost predicate DraftSays(body: seq<(string, string)>, handles: map<string, string>, draft: PayrollDraft) {
    && |draft.items| == |body|
    && (forall i :: 0 <= i < |body| ==>
          draft.items[i].recipientInput == body[i].0 && draft.items[i].amount == body[i].1 && draft.items[i].rowIndex == i)
    && AllPreview(Numbered(body), handles, draft.items)
    && RecipientsRight(draft.items, handles)
    && W.Draft(ToDraft(draft.items))
    && ParsePayrollAmount(draft.totalAmount, 6) == Ok(W.DraftTotal(ToDraft(draft.items)))
    && draft.itemCount == |ValidPlaces(draft.items)|
    && (draft.ready <==> exists i :: 0 <= i < |draft.items| && draft.items[i].valid)
  }

  lemma DraftIs(body: seq<(string, string)>, handles: map<string, string>, items: seq<PreviewItem>, totalAmount: string)
    requires |items| == |body| && AllPreview(Numbered(body), handles, items)
    requires ParsePayrollAmount(totalAmount, 6) == Ok(UnitsSum(ValidAmounts(items)))
    ensures DraftSays(body, handles,
                      PayrollDraft(items, |ValidAmounts(items)|, totalAmount, |ValidAmounts(items)| > 0))
  {
    var rows := Numbered(body);
    PreviewsAreDraft(rows, handles, items);
    PreviewsCopy(rows, handles, items);
    RecipientsAre(rows, handles, items);
    DraftTotalIsSum(items);
    SomeValid(items);
    ValidCount(items);
  }

  /** The run that the create route stores, up to the database write. */
  method Intake(csv: string, handles: map<string, string>) returns (r: Result<PayrollDraft, IntakeError>)
    ensures var body := Body(Contents(Lines(csv)));
            match r
            case Err(EmptyPayroll) => body == []
            case Err(TooManyRows) => |body| > 10_000
            case Ok(draft) => 0 < |body| <= 10_000 && DraftSays(body, handles, draft)
  {
    var parsed := ParseCsv(csv);
    if |parsed| == 0 {
      return Err(EmptyPayroll);
    }
    if |parsed| > MAX_ROWS {
      return Err(TooManyRows);
    }
    var items := ValidateRows(parsed, handles);
    var amounts := ValidAmounts(items);
    ValidAreAmounts(parsed, handles, items);
    var totalAmount := SumAmounts(amounts);
    DraftIs(Body(Contents(Lines(csv))), handles, items, totalAmount);
    r := Ok(PayrollDraft(items, |amounts|, totalAmount, |amounts| > 0));
  }

  /** The items carry their rows' texts and numbers. */
  lemma PreviewsCopy(rows: seq<ParsedRow>, handles: map<string, string>, items: seq<PreviewItem>)
    requires |items| == |rows| && AllPreview(rows, handles, items)
    ensures forall i :: 0 <= i < |items| ==>
              items[i].recipientInput == rows[i].recipientInput && items[i].amount == rows[i].amount
              && items[i].rowIndex == rows[i].rowIndex
  {
    forall i | 0 <= i < |items|
      ensures items[i].recipientInput == rows[i].recipientInput && items[i].amount == rows[i].amount
              && items[i].rowIndex == rows[i].rowIndex
    {
      assert Previews(rows, handles, i, items[i]);
    }
  }

  lemma ValidAreAmounts(rows: seq<ParsedRow>, handles: map<string, string>, items: seq<PreviewItem>)
    requires |items| == |rows| && AllPreview(rows, handles, items)
    ensures forall i :: 0 <= i < |ValidAmounts(items)| ==> IsIntakeAmount(ValidAmounts(items)[i])
  {
    var amounts := ValidAmounts(items);
    forall i | 0 <= i < |amounts| ensures IsIntakeAmount(amounts[i]) {
      ValidAmountsAre(items, i);
      var j :| 0 <= j < |items| && items[j].valid && items[j].amount == amounts[i];
      assert Previews(rows, handles, j, items[j]);
    }
  }

  function ValidPlaces(items: seq<PreviewItem>): set<nat> {
    set i: nat | i < |items| && items[i].valid
  }

  lemma {:induction false} ValidCount(items: seq<PreviewItem>)
    ensures |ValidAmounts(items)| == |ValidPlaces(items)|
  {
    if items == [] {
      assert ValidPlaces(items) == {};
    } else {
      var front, n := items[..|items| - 1], |items| - 1;
      ValidCount(front);
      assert ValidPlaces(items) == ValidPlaces(front) + if items[n].valid then {n} else {};
    }
  }

  lemma {:induction false} SomeValid(items: seq<PreviewItem>)
    ensures |ValidAmounts(items)| > 0 <==> exists i :: 0 <= i < |items| && items[i].valid
  {
    if items != [] {
      var front := items[..|items| - 1];
      SomeValid(front);
      if |ValidAmounts(front)| > 0 {
        var i :| 0 <= i < |front| && front[i].valid;
        assert items[i].valid;
      }
      assert forall i :: 0 <= i < |front| ==> front[i] == items[i];
    }
  }

  // ---------- Positive amounts ----------

  lemma {:induction false} ValuePositive(s: string)
    requires AllDigits(s)
    ensures Value(s) > 0 <==> IsPositive(s)
  {
    if s != [] {
      var front := s[..|s| - 1];
      ValuePositive(front);
      ValueLast(s);
      if IsPositive(front) {
        var i :| 0 <= i < |front| && '1' <= front[i] <= '9';
        assert s[i] == front[i];
      } else {
        assert forall i :: 0 <= i < |front| ==> s[i] == front[i];
      }
    }
  }

  /** The text test for a positive amount agrees with the amount's value. */
  lemma PositiveUnits(s: string)
    requires IsIntakeAmount(s)
    ensures Units(s) > 0 <==> IsPositive(s)
  {
    var whole, fraction := WholePart(s), FractionPart(s);
    var i := IndexOf(s, '.');
    assert if i < |s| then s == whole + "." + fraction else s == whole;
    PadEndDigits(fraction, 6);
    ValuePositive(whole);
    ValuePositive(PadEnd(fraction, 6));
    Million();
    if IsPositive(PadEnd(fraction, 6)) {
      var k :| 0 <= k < |PadEnd(fraction, 6)| && '1' <= PadEnd(fraction, 6)[k] <= '9';
      assert fraction[k] == PadEnd(fraction, 6)[k];
      assert s[i + 1 + k] == fraction[k];
    }
    if IsPositive(whole) {
      var k :| 0 <= k < |whole| && '1' <= whole[k] <= '9';
      assert s[k] == whole[k];
    }
    if IsPositive(s) {
      var k :| 0 <= k < |s| && '1' <= s[k] <= '9';
      if k < i {
        assert whole[k] == s[k];
      } else {
        assert fraction[k - i - 1] == s[k] && PadEnd(fraction, 6)[k - i - 1] == s[k];
      }
    }
  }

  /** The amounts a row may have are the positive ones of at most six decimals, written without a bare point at the end. */
  lemma PayableAmountIff(s: string)
    ensures IsIntakeAmount(s) && IsPositive(s)
            <==> ParsePayrollAmount(s, 6).Ok? && ParsePayrollAmount(s, 6).value > 0 && s != "" && s[|s| - 1] != '.'
  {
    var i := IndexOf(s, '.');
    if IsIntakeAmount(s) {
      PositiveUnits(s);
      assert i == |s| ==> WholePart(s) == s;
      assert i < |s| ==> s[|s| - 1] == FractionPart(s)[|FractionPart(s)| - 1];
    } else if ParsePayrollAmount(s, 6).Ok? {
      assert i < |s| && FractionPart(s) == [];
    }
  }

  // ---------- Batches ----------

  function Flatten<T>(groups: seq<seq<T>>): seq<T> {
    if groups == [] then [] else Flatten(groups[..|groups| - 1]) + groups[|groups| - 1]
  }

  /** Batches of at most the given size, none empty, that put together give back the list. */
  method Chunk<T>(arr: seq<T>, size: nat) returns (out: seq<seq<T>>)
    requires size > 0
    ensures Flatten(out) == arr
    ensures forall g :: g in out ==> 1 <= |g| <= size
    ensures forall k :: 0 <= k < |out| - 1 ==> |out[k]| == size
  {
    out := [];
    var i := 0;
    while i < |arr|
      invariant 0 <= i
      invariant Flatten(out) == arr[..Min(i, |arr|)]
      invariant forall g :: g in out ==> 1 <= |g| <= size
      invariant forall k :: 0 <= k < |out| && (k < |out| - 1 || i <= |arr|) ==> |out[k]| == size
    {
      var group := arr[i..Min(i + size, |arr|)];
      assert arr[..Min(i + size, |arr|)] == arr[..i] + group;
      out := out + [group];
      assert out[..|out| - 1] + [group] == out;
      i := i + size;
    }
    assert arr[..|arr|] == arr;
  }
}
