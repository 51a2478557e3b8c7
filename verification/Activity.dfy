/** The activity feed: pages of a participant's events, newest first, and the cursor from one page to the next. */
module Activity {
  import opened Prelude
  import opened Decimal

  datatype Cursor = Cursor(blockNumber: nat, logIndex: nat)

  datatype Event = Event(
    position: Cursor,
    txHash: string,
    fromAddr: Option<string>,
    toAddr: Option<string>,
    payload: string)

  predicate Before(a: Cursor, b: Cursor) {
    a.blockNumber < b.blockNumber || (a.blockNumber == b.blockNumber && a.logIndex < b.logIndex)
  }

  predicate Participates(e: Event, address: string) {
    e.fromAddr == Some(address) || e.toAddr == Some(address)
  }

  predicate Wanted(e: Event, address: string, cursor: Option<Cursor>) {
    Participates(e, address) && Keeps(cursor, e)
  }

  function Select(table: seq<Event>, address: string, cursor: Option<Cursor>): seq<Event> {
    if table == [] then []
    else (if Wanted(table[0], address, cursor) then [table[0]] else []) + Select(table[1..], address, cursor)
  }

  function Insert(e: Event, sorted: seq<Event>): seq<Event> {
    if sorted == [] || !Before(e.position, sorted[0].position) then [e] + sorted
    else [sorted[0]] + Insert(e, sorted[1..])
  }

  /** Ordered by block, then log index, both descending; rows at one position keep the table's order. */
  function OrderDesc(rows: seq<Event>): seq<Event> {
    if rows == [] then [] else Insert(rows[0], OrderDesc(rows[1..]))
  }

  function Limit<T>(rows: seq<T>, n: nat): seq<T> {
    if |rows| <= n then rows else rows[..n]
  }

  function LoadActivityRows(table: seq<Event>, address: string, cursor: Option<Cursor>, limit: nat): seq<Event> {
    Limit(OrderDesc(Select(table, address, cursor)), limit)
  }

  // ---------- The cursor text ----------

  function FormatCursor(c: Cursor): string {
    ToDecimal(c.blockNumber) + ":" + ToDecimal(c.logIndex)
  }

  /** The first two parts between colons, both of digits; more parts are ignored. */
  function ParseCursor(text: string): Option<Cursor> {
    var parts := SplitOn(text, ':');
    if |parts| < 2 || parts[0] == "" || parts[1] == "" || !AllDigits(parts[0]) || !AllDigits(parts[1]) then None
    else Some(Cursor(Value(parts[0]), Value(parts[1])))
  }

  /** Parsing undoes formatting. */
  /** Digits, a colon, digits, and nothing else or another colon and anything. */
  predicate CursorText(text: string, block: string, log: string) {
    && block != "" && log != "" && AllDigits(block) && AllDigits(log)
    && |block| < |text| && text[..|block|] == block && text[|block|] == ':'
    && (text[|block| + 1..] == log || log + [':'] <= text[|block| + 1..])
  }

  /** The first two parts of a text with a colon. */
  lemma TwoParts(text: string)
    requires IndexOf(text, ':') < |text|
    ensures var i := IndexOf(text, ':');
            var rest := text[i + 1..];
            |SplitOn(text, ':')| >= 2 && SplitOn(text, ':')[0] == text[..i]
            && SplitOn(text, ':')[1] == rest[..IndexOf(rest, ':')]
  {
    var rest := text[IndexOf(text, ':') + 1..];
    assert rest[..|rest|] == rest;
  }

  /** A text of digits ends where it is followed by a colon or by nothing. */
  lemma DigitsEnd(digits: string, rest: string)
    requires AllDigits(digits) && (rest == digits || digits + [':'] <= rest)
    ensures IndexOf(rest, ':') == |digits| && rest[..|digits|] == digits
  {
    assert ':' !in digits by {
      assert !IsDigit(':');
    }
    if rest == digits {
      IndexOfAfter(digits, "", ':');
    } else {
      IndexOfAfter(digits, rest[|digits| + 1..], ':');
      assert rest == digits + [':'] + rest[|digits| + 1..];
    }
  }

  /** A cursor is accepted exactly when it is such a text, and is then the numbers it holds. */
  lemma ParsesIff(text: string, c: Cursor)
    ensures ParseCursor(text) == Some(c)
            <==> exists block, log :: CursorText(text, block, log) && c == Cursor(Value(block), Value(log))
  {
    if ParseCursor(text) == Some(c) {
      ParsedText(text);
    }
    forall block, log | CursorText(text, block, log) && c == Cursor(Value(block), Value(log))
      ensures ParseCursor(text) == Some(c)
    {
      TextParses(text, block, log);
    }
  }

  lemma ParsedText(text: string)
    requires ParseCursor(text).Some?
    ensures exists block, log :: CursorText(text, block, log) && ParseCursor(text) == Some(Cursor(Value(block), Value(log)))
  {
    var i := IndexOf(text, ':');
    if i < |text| {
      TwoParts(text);
      var rest := text[i + 1..];
      var j := IndexOf(rest, ':');
      assert j < |rest| ==> rest[..j] + [':'] == rest[..j + 1];
      assert CursorText(text, text[..i], rest[..j]);
    }
  }

  lemma TextParses(text: string, block: string, log: string)
    requires CursorText(text, block, log)
    ensures ParseCursor(text) == Some(Cursor(Value(block), Value(log)))
  {
    assert block + [':'] <= text;
    DigitsEnd(block, text);
    DigitsEnd(log, text[|block| + 1..]);
    TwoParts(text);
  }

  lemma CursorRoundTrip(c: Cursor)
    ensures ParseCursor(FormatCursor(c)) == Some(c)
  {
    var block, log := ToDecimal(c.blockNumber), ToDecimal(c.logIndex);
    DecimalValue(c.blockNumber);
    DecimalValue(c.logIndex);
    assert ':' !in block && ':' !in log by {
      assert !IsDigit(':');
    }
    IndexOfAfter(block, log, ':');
    IndexOfAfter(log, "", ':');
    assert FormatCursor(c) == block + [':'] + log;
    assert SplitOn(log, ':') == [log];
    assert (block + [':'] + log)[..|block|] == block && (block + [':'] + log)[|block| + 1..] == log;
  }

  // ---------- One page ----------

  datatype Page = Page(activity: seq<Event>, nextCursor: Option<string>)

  /** One row more than the page holds is read, only to learn whether there is a next page. */
  function GetPage(table: seq<Event>, address: string, cursor: Option<Cursor>, limit: nat): Page
    requires limit >= 1
  {
    var rows := LoadActivityRows(table, address, cursor, limit + 1);
    var visibleRows := Limit(rows, limit);
    var next := if |rows| > limit then Some(FormatCursor(visibleRows[|visibleRows| - 1].position)) else None;
    Page(visibleRows, next)
  }

  /** The request's cursor: none or empty is the first page, and one that does not parse is refused. */
  function GetActivity(table: seq<Event>, address: string, cursor: Option<string>, limit: nat): Option<Page>
    requires limit >= 1
  {
    if cursor.None? || cursor.value == "" then Some(GetPage(table, address, None, limit))
    else
      var parsed := ParseCursor(cursor.value);
      if parsed.None? then None else Some(GetPage(table, address, parsed, limit))
  }

  /** A request is refused exactly when it has a cursor that is no cursor text. */
  lemma RefusedIff(table: seq<Event>, address: string, cursor: Option<string>, limit: nat)
    requires limit >= 1
    ensures GetActivity(table, address, cursor, limit).None?
            <==> cursor.Some? && cursor.value != "" && forall block, log :: !CursorText(cursor.value, block, log)
  {
    if cursor.Some? && cursor.value != "" {
      if ParseCursor(cursor.value).Some? {
        ParsedText(cursor.value);
      }
      forall block, log | CursorText(cursor.value, block, log) ensures ParseCursor(cursor.value).Some? {
        TextParses(cursor.value, block, log);
      }
    }
  }

  // ---------- Order ----------

  predicate Descending(rows: seq<Event>) {
    forall i, j :: 0 <= i < j < |rows| ==> !Before(rows[i].position, rows[j].position)
  }

  predicate StrictlyDescending(rows: seq<Event>) {
    forall i, j :: 0 <= i < j < |rows| ==> Before(rows[j].position, rows[i].position)
  }

  lemma ConsDescending(e: Event, rows: seq<Event>)
    requires Descending(rows) && forall j :: 0 <= j < |rows| ==> !Before(e.position, rows[j].position)
    ensures Descending([e] + rows)
  {
  }

  lemma {:induction false} InsertDescending(e: Event, sorted: seq<Event>)
    requires Descending(sorted)
    ensures Descending(Insert(e, sorted)) && multiset(Insert(e, sorted)) == multiset{e} + multiset(sorted)
  {
    if sorted == [] || !Before(e.position, sorted[0].position) {
      ConsDescending(e, sorted);
    } else {
      InsertDescending(e, sorted[1..]);
      assert sorted == [sorted[0]] + sorted[1..];
      var rest := Insert(e, sorted[1..]);
      forall j | 0 <= j < |rest| ensures !Before(sorted[0].position, rest[j].position) {
        assert rest[j] in multiset(rest);
      }
      ConsDescending(sorted[0], rest);
    }
  }

  lemma {:induction false} OrderedRows(rows: seq<Event>)
    ensures Descending(OrderDesc(rows)) && multiset(OrderDesc(rows)) == multiset(rows)
  {
    if rows != [] {
      OrderedRows(rows[1..]);
      InsertDescending(rows[0], OrderDesc(rows[1..]));
      assert rows == [rows[0]] + rows[1..];
    }
  }

  // ---------- What is left after a cursor ----------

  function Remaining(rows: seq<Event>, cursor: Option<Cursor>): seq<Event> {
    if rows == [] then []
    else if Keeps(cursor, rows[0]) then [rows[0]] + Remaining(rows[1..], cursor)
    else Remaining(rows[1..], cursor)
  }

  predicate Keeps(cursor: Option<Cursor>, e: Event) {
    cursor.Some? ==> Before(e.position, cursor.value)
  }

  lemma RemainingCons(e: Event, rows: seq<Event>, cursor: Option<Cursor>)
    ensures Remaining([e] + rows, cursor)
            == if Keeps(cursor, e) then [e] + Remaining(rows, cursor) else Remaining(rows, cursor)
  {
    assert ([e] + rows)[1..] == rows;
  }

  /** The first place whose row is before the cursor. */
  function Cut(rows: seq<Event>, c: Cursor): (k: nat)
    ensures k <= |rows|
    ensures forall i :: 0 <= i < k ==> !Before(rows[i].position, c)
    ensures k < |rows| ==> Before(rows[k].position, c)
  {
    if rows == [] || Before(rows[0].position, c) then 0 else 1 + Cut(rows[1..], c)
  }

  lemma {:induction false} AllRemain(rows: seq<Event>, cursor: Option<Cursor>)
    requires forall i :: 0 <= i < |rows| && cursor.Some? ==> Before(rows[i].position, cursor.value)
    ensures Remaining(rows, cursor) == rows
  {
    if rows != [] {
      AllRemain(rows[1..], cursor);
    }
  }

  /** In a descending feed what is left is a tail. */
  lemma {:induction false} RemainingIsTail(rows: seq<Event>, c: Cursor)
    requires Descending(rows)
    ensures Remaining(rows, Some(c)) == rows[Cut(rows, c)..]
  {
    if rows == [] {
    } else if Before(rows[0].position, c) {
      assert forall i :: 0 < i < |rows| ==> !Before(rows[0].position, rows[i].position);
      AllRemain(rows, Some(c));
    } else {
      RemainingIsTail(rows[1..], c);
    }
  }

  lemma {:induction false} RemainingTwice(rows: seq<Event>, cursor: Option<Cursor>, c: Cursor)
    requires cursor.Some? ==> Before(c, cursor.value)
    ensures Remaining(Remaining(rows, cursor), Some(c)) == Remaining(rows, Some(c))
  {
    if rows != [] {
      RemainingTwice(rows[1..], cursor, c);
      RemainingCons(rows[0], Remaining(rows[1..], cursor), Some(c));
    }
  }

  lemma InsertFirst(e: Event, sorted: seq<Event>, cursor: Option<Cursor>)
    requires Descending(sorted) && (sorted == [] || !Before(e.position, sorted[0].position))
    ensures Insert(e, Remaining(sorted, cursor)) == [e] + Remaining(sorted, cursor)
    ensures !Keeps(cursor, e) || Remaining([e] + sorted, cursor) == [e] + Remaining(sorted, cursor)
    ensures Keeps(cursor, e) || Remaining([e] + sorted, cursor) == Remaining(sorted, cursor)
  {
    RemainingCons(e, sorted, cursor);
    if cursor.Some? {
      RemainingIsTail(sorted, cursor.value);
    } else {
      AllRemain(sorted, cursor);
    }
  }

  lemma {:induction false} InsertRemaining(e: Event, sorted: seq<Event>, cursor: Option<Cursor>)
    requires Descending(sorted)
    ensures Remaining(Insert(e, sorted), cursor)
            == if Keeps(cursor, e) then Insert(e, Remaining(sorted, cursor)) else Remaining(sorted, cursor)
  {
    if sorted == [] || !Before(e.position, sorted[0].position) {
      InsertFirst(e, sorted, cursor);
    } else {
      InsertRemaining(e, sorted[1..], cursor);
      RemainingCons(sorted[0], Insert(e, sorted[1..]), cursor);
      var rest := Remaining(sorted[1..], cursor);
      assert ([sorted[0]] + rest)[1..] == rest;
    }
  }

  /** Everything an address takes part in, newest first. */
  function Feed(table: seq<Event>, address: string): seq<Event> {
    OrderDesc(Select(table, address, None))
  }

  lemma SelectHead(table: seq<Event>, address: string, cursor: Option<Cursor>)
    requires table != []
    ensures OrderDesc(Select(table, address, cursor))
            == if Wanted(table[0], address, cursor) then Insert(table[0], OrderDesc(Select(table[1..], address, cursor)))
               else OrderDesc(Select(table[1..], address, cursor))
  {
    var rest := Select(table[1..], address, cursor);
    if Wanted(table[0], address, cursor) {
      assert ([table[0]] + rest)[1..] == rest;
    } else {
      assert [] + rest == rest;
    }
  }

  /** Filtering by the cursor before ordering is cutting the ordered feed. */
  lemma {:induction false} LoadsRemaining(table: seq<Event>, address: string, cursor: Option<Cursor>)
    ensures OrderDesc(Select(table, address, cursor)) == Remaining(Feed(table, address), cursor)
  {
    if table != [] {
      LoadsRemaining(table[1..], address, cursor);
      SelectHead(table, address, cursor);
      SelectHead(table, address, None);
      OrderedRows(Select(table[1..], address, None));
      InsertRemaining(table[0], Feed(table[1..], address), cursor);
    }
  }

  // ---------- Following the cursors ----------

  function Left(table: seq<Event>, address: string, cursor: Option<Cursor>): seq<Event> {
    Remaining(Feed(table, address), cursor)
  }

  lemma OneRowMore<T>(rows: seq<T>, limit: nat)
    requires limit >= 1
    ensures Limit(Limit(rows, limit + 1), limit) == Limit(rows, limit)
    ensures |Limit(rows, limit + 1)| > limit <==> |rows| > limit
    ensures |rows| > limit ==> Limit(rows, limit)[|Limit(rows, limit)| - 1] == rows[limit - 1]
  {
  }

  /** A page is the start of what is left after its cursor, and the next cursor is its last row's position. */
  lemma PageIsStart(table: seq<Event>, address: string, cursor: Option<Cursor>, limit: nat)
    requires limit >= 1
    ensures Descending(Left(table, address, cursor))
    ensures var left, page := Left(table, address, cursor), GetPage(table, address, cursor, limit);
            && page.activity == Limit(left, limit)
            && page.nextCursor == if |left| <= limit then None else Some(FormatCursor(left[limit - 1].position))
  {
    LoadsRemaining(table, address, cursor);
    OrderedRows(Select(table, address, cursor));
    OneRowMore(Left(table, address, cursor), limit);
  }

  /** After a full page, what is left starts past every row at its last position. */
  lemma LeftAfterPage(table: seq<Event>, address: string, cursor: Option<Cursor>, limit: nat)
    requires limit >= 1 && |Left(table, address, cursor)| > limit && Descending(Left(table, address, cursor))
    ensures var left := Left(table, address, cursor);
            var c := left[limit - 1].position;
            ParseCursor(FormatCursor(c)) == Some(c)
            && Left(table, address, Some(c)) == left[Cut(left, c)..]
            && Cut(left, c) >= limit
  {
    var left := Left(table, address, cursor);
    var c := left[limit - 1].position;
    CursorRoundTrip(c);
    if cursor.Some? {
      RemainIsBefore(Feed(table, address), cursor, limit - 1);
    }
    RemainingTwice(Feed(table, address), cursor, c);
    RemainingIsTail(left, c);
    assert forall i :: 0 <= i < limit - 1 ==> !Before(left[i].position, left[limit - 1].position);
  }

  lemma {:induction false} RemainIsBefore(rows: seq<Event>, cursor: Option<Cursor>, k: nat)
    requires k < |Remaining(rows, cursor)| && cursor.Some?
    ensures Before(Remaining(rows, cursor)[k].position, cursor.value)
  {
    if Before(rows[0].position, cursor.value) {
      if k > 0 {
        RemainIsBefore(rows[1..], cursor, k - 1);
      }
    } else {
      RemainIsBefore(rows[1..], cursor, k);
    }
  }

  /** The pages a reader sees who follows every nextCursor. */
  function Crawl(table: seq<Event>, address: string, cursor: Option<Cursor>, limit: nat): (pages: seq<Page>)
    requires limit >= 1
    ensures |pages| >= 1
    decreases |Left(table, address, cursor)|
  {
    var page := GetPage(table, address, cursor, limit);
    PageIsStart(table, address, cursor, limit);
    if page.nextCursor.None? then [page]
    else
      LeftAfterPage(table, address, cursor, limit);
      [page] + Crawl(table, address, ParseCursor(page.nextCursor.value), limit)
  }

  function Rows(pages: seq<Page>): seq<Event> {
    if pages == [] then [] else pages[0].activity + Rows(pages[1..])
  }

  /** No page ends between two rows at one position. */
  predicate CleanBreaks(rows: seq<Event>, limit: nat)
    requires limit >= 1
  {
    |rows| > limit ==> Before(rows[limit].position, rows[limit - 1].position) && CleanBreaks(rows[limit..], limit)
  }

  lemma RowsCons(page: Page, pages: seq<Page>)
    ensures Rows([page] + pages) == page.activity + Rows(pages)
  {
    assert ([page] + pages)[1..] == pages;
  }

  lemma {:induction false} CrawlRows(table: seq<Event>, address: string, cursor: Option<Cursor>, limit: nat)
    requires limit >= 1
    ensures |Rows(Crawl(table, address, cursor, limit))| <= |Left(table, address, cursor)|
    ensures Rows(Crawl(table, address, cursor, limit)) == Left(table, address, cursor)
            <==> CleanBreaks(Left(table, address, cursor), limit)
    decreases |Left(table, address, cursor)|
  {
    var left, page := Left(table, address, cursor), GetPage(table, address, cursor, limit);
    PageIsStart(table, address, cursor, limit);
    if |left| <= limit {
      RowsCons(page, []);
      assert [page] + [] == [page] && page.activity + [] == page.activity;
    } else {
      LeftAfterPage(table, address, cursor, limit);
      var c := left[limit - 1].position;
      CrawlRows(table, address, Some(c), limit);
      var pages := Crawl(table, address, Some(c), limit);
      RowsCons(page, pages);
      SplitsClean(left, limit, Cut(left, c), Rows(pages));
    }
  }

  lemma SplitsClean(left: seq<Event>, limit: nat, cut: nat, rest: seq<Event>)
    requires limit >= 1 && limit < |left| && limit <= cut <= |left| && cut == Cut(left, left[limit - 1].position)
    requires |rest| <= |left[cut..]| && (rest == left[cut..] <==> CleanBreaks(left[cut..], limit))
    ensures |left[..limit] + rest| <= |left|
    ensures left[..limit] + rest == left <==> CleanBreaks(left, limit)
  {
    if cut == limit {
      assert left[..limit] + left[limit..] == left;
      assert (left[..limit] + rest)[limit..] == rest;
    } else {
      assert |left[..limit] + rest| < |left|;
    }
  }

  /** A reader of a fixed table sees the whole feed, in order and once, exactly when no page splits a position. */
  lemma CrawlIsFeedIff(table: seq<Event>, address: string, limit: nat)
    requires limit >= 1
    ensures Rows(Crawl(table, address, None, limit)) == Feed(table, address) <==> CleanBreaks(Feed(table, address), limit)
  {
    AllRemain(Feed(table, address), None);
    CrawlRows(table, address, None, limit);
  }

  /** Two rows at one position and pages of one row: the reader sees the first row only, and is told there is no more. */
  lemma SplitPositionSkipsARow(e: Event, f: Event, address: string)
    requires Participates(e, address) && Participates(f, address) && e.position == f.position
    ensures Feed([e, f], address) == [e, f] && Rows(Crawl([e, f], address, None, 1)) == [e]
  {
    TwoRows(e, f, address);
    FirstOfTwo(e, f, address);
    NothingAfterOne(e, f, address);
    CursorRoundTrip(e.position);
    var first, last := GetPage([e, f], address, None, 1), GetPage([e, f], address, Some(e.position), 1);
    assert Crawl([e, f], address, Some(e.position), 1) == [last];
    RowsCons(first, [last]);
    RowsCons(last, []);
    assert [last] + [] == [last];
  }

  lemma FirstOfTwo(e: Event, f: Event, address: string)
    requires Participates(e, address) && Participates(f, address) && e.position == f.position
    ensures GetPage([e, f], address, None, 1) == Page([e], Some(FormatCursor(e.position)))
  {
    TwoRows(e, f, address);
    AllRemain([e, f], None);
    PageIsStart([e, f], address, None, 1);
  }

  lemma NothingAfterOne(e: Event, f: Event, address: string)
    requires Participates(e, address) && Participates(f, address) && e.position == f.position
    ensures GetPage([e, f], address, Some(e.position), 1) == Page([], None)
  {
    TwoRows(e, f, address);
    RemainingIsTail([e, f], e.position);
    assert Cut([e, f], e.position) == 2;
    PageIsStart([e, f], address, Some(e.position), 1);
  }

  lemma TwoRows(e: Event, f: Event, address: string)
    requires Participates(e, address) && Participates(f, address) && e.position == f.position
    ensures Feed([e, f], address) == [e, f]
  {
    assert [e, f][1..] == [f] && [f][1..] == [];
    assert Select([f], address, None) == [f];
    assert Select([e, f], address, None) == [e, f];
    assert OrderDesc([f]) == [f];
  }

  lemma {:induction false} StrictIsClean(rows: seq<Event>, limit: nat)
    requires limit >= 1 && StrictlyDescending(rows)
    ensures CleanBreaks(rows, limit)
    decreases |rows|
  {
    if |rows| > limit {
      StrictIsClean(rows[limit..], limit);
    }
  }

  /** How many rows an address takes part in at one position. */
  function CountAt(table: seq<Event>, address: string, c: Cursor): nat {
    if table == [] then 0
    else
      (if Participates(table[0], address) && table[0].position == c then 1 else 0) + CountAt(table[1..], address, c)
  }

  ghost predicate UniquePositions(table: seq<Event>, address: string) {
    forall c :: CountAt(table, address, c) <= 1
  }

  function Count(rows: seq<Event>, c: Cursor): nat {
    if rows == [] then 0 else (if rows[0].position == c then 1 else 0) + Count(rows[1..], c)
  }

  lemma CountCons(e: Event, rows: seq<Event>, c: Cursor)
    ensures Count([e] + rows, c) == (if e.position == c then 1 else 0) + Count(rows, c)
  {
    assert ([e] + rows)[1..] == rows;
  }

  lemma {:induction false} CountInsert(e: Event, sorted: seq<Event>, c: Cursor)
    ensures Count(Insert(e, sorted), c) == (if e.position == c then 1 else 0) + Count(sorted, c)
  {
    if sorted == [] || !Before(e.position, sorted[0].position) {
      CountCons(e, sorted, c);
    } else {
      CountInsert(e, sorted[1..], c);
      CountCons(sorted[0], Insert(e, sorted[1..]), c);
    }
  }

  lemma {:induction false} CountFeed(table: seq<Event>, address: string, c: Cursor)
    ensures Count(Feed(table, address), c) == CountAt(table, address, c)
  {
    if table != [] {
      CountFeed(table[1..], address, c);
      SelectHead(table, address, None);
      CountInsert(table[0], Feed(table[1..], address), c);
    }
  }

  lemma {:induction false} CountSome(rows: seq<Event>, i: nat)
    requires i < |rows|
    ensures Count(rows, rows[i].position) >= 1
  {
    if i > 0 {
      CountSome(rows[1..], i - 1);
    }
  }

  lemma {:induction false} CountTwo(rows: seq<Event>, i: nat, j: nat)
    requires i < j < |rows| && rows[i].position == rows[j].position
    ensures Count(rows, rows[i].position) >= 2
  {
    if i == 0 {
      CountSome(rows[1..], j - 1);
    } else {
      CountTwo(rows[1..], i - 1, j - 1);
    }
  }

  lemma {:induction false} CountNone(rows: seq<Event>, c: Cursor)
    requires forall i :: 0 <= i < |rows| ==> rows[i].position != c
    ensures Count(rows, c) == 0
  {
    if rows != [] {
      CountNone(rows[1..], c);
    }
  }

  lemma {:induction false} CountOnce(rows: seq<Event>, c: Cursor)
    requires StrictlyDescending(rows)
    ensures Count(rows, c) <= 1
  {
    if rows != [] {
      if rows[0].position == c {
        CountNone(rows[1..], c);
      } else {
        CountOnce(rows[1..], c);
      }
    }
  }

  lemma UniqueIsStrict(table: seq<Event>, address: string)
    ensures UniquePositions(table, address) <==> StrictlyDescending(Feed(table, address))
  {
    var feed := Feed(table, address);
    OrderedRows(Select(table, address, None));
    if UniquePositions(table, address) {
      forall i, j | 0 <= i < j < |feed| ensures Before(feed[j].position, feed[i].position) {
        CountFeed(table, address, feed[i].position);
        if feed[i].position == feed[j].position {
          CountTwo(feed, i, j);
        }
      }
    }
    if StrictlyDescending(feed) {
      forall c ensures CountAt(table, address, c) <= 1 {
        CountOnce(feed, c);
        CountFeed(table, address, c);
      }
    }
  }

  lemma {:induction false} SelectedFrom(table: seq<Event>, address: string, e: Event)
    ensures multiset(Select(table, address, None))[e] == if Participates(e, address) then multiset(table)[e] else 0
  {
    if table != [] {
      SelectedFrom(table[1..], address, e);
      assert table == [table[0]] + table[1..];
    }
  }

  /** The rows from or to an address, each as often as the table holds it, by block and then log index, newest first. */
  lemma FeedIsComplete(table: seq<Event>, address: string)
    ensures forall e :: multiset(Feed(table, address))[e]
                        == if e.fromAddr == Some(address) || e.toAddr == Some(address) then multiset(table)[e] else 0
    ensures var feed := Feed(table, address);
            forall i, j :: 0 <= i < j < |feed| ==>
              feed[i].position.blockNumber > feed[j].position.blockNumber
              || (feed[i].position.blockNumber == feed[j].position.blockNumber
                  && feed[i].position.logIndex >= feed[j].position.logIndex)
  {
    OrderedRows(Select(table, address, None));
    forall e ensures multiset(Feed(table, address))[e] == if Participates(e, address) then multiset(table)[e] else 0 {
      SelectedFrom(table, address, e);
    }
  }

  ghost predicate EveryCrawlIsFeed(table: seq<Event>, address: string) {
    forall limit: nat :: limit >= 1 ==> Rows(Crawl(table, address, None, limit)) == Feed(table, address)
  }

  /** Following the cursors shows the whole feed in order for every page size exactly when no position repeats. */
  lemma EveryCrawlIsFeedIff(table: seq<Event>, address: string)
    ensures EveryCrawlIsFeed(table, address) <==> UniquePositions(table, address)
  {
    var feed := Feed(table, address);
    UniqueIsStrict(table, address);
    if UniquePositions(table, address) {
      forall limit: nat | limit >= 1 ensures Rows(Crawl(table, address, None, limit)) == feed {
        CrawlIsFeedIff(table, address, limit);
        StrictIsClean(feed, limit);
      }
    }
    if EveryCrawlIsFeed(table, address) {
      forall k: nat | 0 < k < |feed| ensures Before(feed[k].position, feed[k - 1].position) {
        assert Rows(Crawl(table, address, None, k)) == feed;
        CrawlIsFeedIff(table, address, k);
      }
      AdjacentIsStrict(feed);
    }
  }

  lemma {:induction false} AdjacentIsStrict(rows: seq<Event>)
    requires forall k: nat :: 0 < k < |rows| ==> Before(rows[k].position, rows[k - 1].position)
    ensures StrictlyDescending(rows)
  {
    if |rows| > 1 {
      var rest := rows[1..];
      forall k: nat | 0 < k < |rest| ensures Before(rest[k].position, rest[k - 1].position) {
        assert rest[k] == rows[k + 1] && rest[k - 1] == rows[k];
      }
      AdjacentIsStrict(rest);
      forall j | 0 < j < |rows| ensures Before(rows[j].position, rows[0].position) {
        assert Before(rows[1].position, rows[1 - 1].position) && rows[1] == rest[0] && rows[j] == rest[j - 1];
        if j > 1 {
          assert Before(rest[j - 1].position, rest[0].position);
        }
      }
    }
  }

  /** A next cursor sent back as text is served as the next page. */
  lemma NextCursorIsServed(table: seq<Event>, address: string, cursor: Option<Cursor>, limit: nat)
    requires limit >= 1
    ensures var next := GetPage(table, address, cursor, limit).nextCursor;
            next.Some? ==> GetActivity(table, address, next, limit)
                           == Some(GetPage(table, address, ParseCursor(next.value), limit))
  {
    PageIsStart(table, address, cursor, limit);
    if |Left(table, address, cursor)| > limit {
      CursorRoundTrip(Left(table, address, cursor)[limit - 1].position);
    }
  }

  // ---------- Links ----------

  datatype Link = Link(txHash: string, objectType: string, objectId: string, name: string)

  function LinksOf(rows: seq<Link>, txHash: string): seq<Link> {
    if rows == [] then []
    else LinksOf(rows[..|rows| - 1], txHash) + (if rows[|rows| - 1].txHash == txHash then [rows[|rows| - 1]] else [])
  }

  /** Only links of the asked transactions are selected. */
  function SelectLinks(table: seq<Link>, txHashes: seq<string>): seq<Link> {
    if table == [] then []
    else
      SelectLinks(table[..|table| - 1], txHashes)
      + (if table[|table| - 1].txHash in txHashes then [table[|table| - 1]] else [])
  }

  lemma {:induction false} SelectedLinksOf(table: seq<Link>, txHashes: seq<string>, txHash: string)
    ensures LinksOf(SelectLinks(table, txHashes), txHash) == if txHash in txHashes then LinksOf(table, txHash) else []
  {
    if table != [] {
      var front, last := table[..|table| - 1], table[|table| - 1];
      SelectedLinksOf(front, txHashes, txHash);
      var links := SelectLinks(front, txHashes);
      assert (links + [last])[..|links|] == links;
      assert links + [] == links;
    }
  }

  /** The links a map holds for a transaction: none when it has no entry. */
  function LinksIn(byTxHash: map<string, seq<Link>>, txHash: string): seq<Link> {
    if txHash in byTxHash then byTxHash[txHash] else []
  }

  lemma LinksOfSnoc(rows: seq<Link>, row: Link, txHash: string)
    ensures LinksOf(rows + [row], txHash) == LinksOf(rows, txHash) + if row.txHash == txHash then [row] else []
  {
    assert (rows + [row])[..|rows|] == rows;
  }

  lemma AddLink(byTxHash: map<string, seq<Link>>, rows: seq<Link>, row: Link)
    requires forall txHash :: LinksIn(byTxHash, txHash) == LinksOf(rows, txHash)
    ensures var more := byTxHash[row.txHash := LinksIn(byTxHash, row.txHash) + [row]];
            forall txHash :: LinksIn(more, txHash) == LinksOf(rows + [row], txHash)
  {
    var more := byTxHash[row.txHash := LinksIn(byTxHash, row.txHash) + [row]];
    forall txHash ensures LinksIn(more, txHash) == LinksOf(rows + [row], txHash) {
      LinksOfSnoc(rows, row, txHash);
      assert LinksIn(byTxHash, txHash) == LinksOf(rows, txHash);
    }
  }

  /** Every asked transaction gets its own links in table order, and no transaction gets another's. */
  method LoadLinksByTxHash(table: seq<Link>, txHashes: seq<string>) returns (byTxHash: map<string, seq<Link>>)
    ensures forall txHash ::
      LinksIn(byTxHash, txHash) == if txHash in txHashes then LinksOf(table, txHash) else []
  {
    byTxHash := map[];
    if txHashes == [] {
      return;
    }
    var rows := SelectLinks(table, txHashes);
    for i := 0 to |rows|
      invariant forall txHash :: LinksIn(byTxHash, txHash) == LinksOf(rows[..i], txHash)
    {
      AddLink(byTxHash, rows[..i], rows[i]);
      assert rows[..i + 1] == rows[..i] + [rows[i]];
      var links := if rows[i].txHash in byTxHash then byTxHash[rows[i].txHash] else [];
      links := links + [rows[i]];
      byTxHash := byTxHash[rows[i].txHash := links];
    }
    assert rows[..|rows|] == rows;
    forall txHash ensures LinksIn(byTxHash, txHash) == if txHash in txHashes then LinksOf(table, txHash) else [] {
      SelectedLinksOf(table, txHashes, txHash);
      assert LinksIn(byTxHash, txHash) == LinksOf(rows, txHash);
    }
  }
}
