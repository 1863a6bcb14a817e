/**
 * The input parsing and export of `ExcelService` (src/AdUserStatus/Services/ExcelService.cs)
 * over already-read data: header mapping (`MapColumns`, `RequireHeaders`), delimited
 * text over its lines (`ReadDelimitedText`), the row padding of SpreadsheetML 2003
 * (`ReadSpreadsheetXml`) over its parsed cells, and the four result sheets of
 * `ExportResults` as tables of rows.
 */
module ExcelService {
  import opened Wrappers
  import opened Text
  import opened Models

  // ---------------------------------------------------------------------------
  // Header mapping

  /** Why reading an input file fails: two headers with the same name (the
      `ToDictionary` of `MapColumns` throws), or no email column (`RequireHeaders`). */
  datatype ReadError = DuplicateHeader(header: string) | MissingEmailHeader

  /** The zero-based columns of the short name, the display name and the email. */
  datatype Columns = Columns(sam: Option<nat>, name: Option<nat>, mail: Option<nat>)

  /** The dictionary keys of the headers: trimmed, and compared ignoring case, so they
      are held case-folded. */
  function Keys(headers: seq<string>): (ks: seq<string>)
    ensures |ks| == |headers| && forall i | 0 <= i < |headers| :: ks[i] == Lower(Trim(headers[i]))
  {
    seq(|headers|, i requires 0 <= i < |headers| => Lower(Trim(headers[i])))
  }

  /** No key occurs twice. */
  predicate Distinct(ks: seq<string>) {
    forall i, j | 0 <= i < j < |ks| :: ks[i] != ks[j]
  }

  /** `ToDictionary` over the keys in order: each key to its position, or the position of
      the first key that was already added. */
  function Index(ks: seq<string>): (r: Result<map<string, nat>, nat>)
    ensures r.Ok? <==> Distinct(ks)
    ensures r.Ok? ==> forall i | 0 <= i < |ks| :: ks[i] in r.value && r.value[ks[i]] == i
    ensures r.Ok? ==> forall k | k in r.value :: r.value[k] < |ks| && ks[r.value[k]] == k
    ensures r.Err? ==> r.error < |ks| && Distinct(ks[..r.error]) && ks[r.error] in ks[..r.error]
  {
    if ks == [] then Ok(map[])
    else
      var n := |ks|;
      assert ks[..n - 1][..n - 1] == ks[..n - 1];
      match Index(ks[..n - 1])
      case Err(j) =>
        assert ks[..n - 1][..j] == ks[..j];
        Err(j)
      case Ok(m) =>
        if ks[n - 1] in m then
          assert ks[m[ks[n - 1]]] == ks[n - 1];
          Err(n - 1)
        else Ok(m[ks[n - 1] := n - 1])
  }

  /** The header dictionary of `MapColumns`; a duplicate is reported by its trimmed text. */
  function HeaderMap(headers: seq<string>): Result<map<string, nat>, ReadError> {
    match Index(Keys(headers))
    case Ok(m) => Ok(m)
    case Err(j) => Err(DuplicateHeader(Trim(headers[j])))
  }

  /** The synonyms of a field as dictionary keys: case-folded. */
  function Folded(names: seq<string>): (ns: seq<string>)
    ensures |ns| == |names| && forall i | 0 <= i < |names| :: ns[i] == Lower(names[i])
  {
    seq(|names|, i requires 0 <= i < |names| => Lower(names[i]))
  }

  /** The position in `ns` of the first key present in `m`. */
  function FirstPresent(m: map<string, nat>, ns: seq<string>): (k: Option<nat>)
    ensures k.Some? ==> k.value < |ns| && ns[k.value] in m
    ensures k.Some? ==> forall j | 0 <= j < k.value :: ns[j] !in m
    ensures k.None? ==> forall j | 0 <= j < |ns| :: ns[j] !in m
  {
    if ns == [] then None
    else if ns[0] in m then Some(0)
    else match FirstPresent(m, ns[1..])
      case None => None
      case Some(k) => Some(k + 1)
  }

  /** `Col(names)`: the column of the first of the synonyms `ns` (case-folded) that is
      a header. */
  function Col(m: map<string, nat>, ns: seq<string>): Option<nat> {
    match FirstPresent(m, ns)
    case None => None
    case Some(k) => Some(m[ns[k]])
  }

  const SamNames: seq<string> := ["SamAccountName", "sAMAccountName", "Internal ID", "InternalID", "Username", "User", "ID"]
  const NameNames: seq<string> := ["Name", "DisplayName", "FullName"]
  const MailNames: seq<string> := ["EmailAddress", "Email", "Mail", "E-mail", "UPN", "UserPrincipalName"]

  /** `MapColumns`: the column of each field by its synonyms, in the order listed. */
  function MapColumns(headers: seq<string>): Result<Columns, ReadError> {
    match HeaderMap(headers)
    case Err(e) => Err(e)
    case Ok(m) => Ok(Columns(Col(m, Folded(SamNames)), Col(m, Folded(NameNames)), Col(m, Folded(MailNames))))
  }

  /** `RequireHeaders`: the email column must be present. */
  function RequireHeaders(cols: Columns): (r: Result<Columns, ReadError>)
    ensures r.Ok? <==> cols.mail.Some?
    ensures r.Ok? ==> r.value == cols
  {
    if cols.mail.None? then Err(MissingEmailHeader) else Ok(cols)
  }

  /** The header step shared by the readers: map the columns, then require the email. */
  function HeaderColumns(headers: seq<string>): (r: Result<Columns, ReadError>)
    ensures r.Ok? ==> r.value.mail.Some?
  {
    match MapColumns(headers)
    case Err(e) => Err(e)
    case Ok(cols) => RequireHeaders(cols)
  }

  /** No key is any of `ns`. */
  predicate NoneOf(ks: seq<string>, ns: seq<string>) {
    forall j, i | 0 <= j < |ns| && 0 <= i < |ks| :: ks[i] != ns[j]
  }

  /** The first synonym that is a header picks the column, whatever later synonyms match. */
  lemma ColIsFirstSynonym(ks: seq<string>, ns: seq<string>, k: nat, p: nat)
    requires Distinct(ks)
    requires k < |ns| && p < |ks| && ks[p] == ns[k]
    requires NoneOf(ks, ns[..k])
    ensures Col(Index(ks).value, ns) == Some(p)
  {
    var m := Index(ks).value;
    assert ns[k] in m && m[ns[k]] == p;
    forall j | 0 <= j < k
      ensures ns[j] !in m
    {
      assert ns[j] == ns[..k][j];
    }
  }

  /** A field has no column exactly when none of its synonyms is a header. */
  lemma ColAbsentExactly(ks: seq<string>, ns: seq<string>)
    requires Distinct(ks)
    ensures Col(Index(ks).value, ns).None? <==> NoneOf(ks, ns)
  {
    var m := Index(ks).value;
    var f := FirstPresent(m, ns);
    if f.Some? {
      assert ks[m[ns[f.value]]] == ns[f.value];
    }
  }

  /** A column found is a header matching one of the synonyms. */
  lemma ColIsSynonym(ks: seq<string>, ns: seq<string>)
    requires Distinct(ks)
    ensures var c := Col(Index(ks).value, ns);
      c.Some? ==> c.value < |ks| && exists k | 0 <= k < |ns| :: ks[c.value] == ns[k]
  {
    var m := Index(ks).value;
    var f := FirstPresent(m, ns);
    if f.Some? {
      assert ks[m[ns[f.value]]] == ns[f.value];
    }
  }

  /** Reading stops for a missing email column exactly when the headers are distinct and
      none of them is an email synonym; for repeated headers it stops at the first repeat. */
  lemma HeaderErrors(headers: seq<string>)
    ensures var ks := Keys(headers);
      HeaderColumns(headers) == Err(MissingEmailHeader) <==> Distinct(ks) && NoneOf(ks, Folded(MailNames))
    ensures var ks := Keys(headers);
      HeaderColumns(headers).Err? && HeaderColumns(headers).error.DuplicateHeader? <==> !Distinct(ks)
  {
    var ks := Keys(headers);
    if Distinct(ks) {
      ColAbsentExactly(ks, Folded(MailNames));
    }
  }

  // ---------------------------------------------------------------------------
  // Records from rows

  /** `Get(idx)`: the cell of a column, or "" when the field has no column or the row is
      too short. */
  function Field(parts: seq<string>, idx: Option<nat>): (r: string)
    ensures idx.None? || idx.value >= |parts| ==> r == ""
    ensures r != "" ==> r in parts
    ensures (forall i | 0 <= i < |parts| :: Trimmed(parts[i])) ==> Trimmed(r)
  {
    if idx.Some? && idx.value < |parts| then parts[idx.value] else ""
  }

  /** A record as the readers produce it: a short name or an email that is not blank,
      display name and email present, no account state and no category yet. */
  predicate IsInputRecord(u: UserDto) {
    && u.displayName.Some? && u.email.Some? && u.enabled.None? && u.category == ""
    && !(IsBlank(u.samAccountName) && IsBlank(u.email.value))
  }

  /** All three fields of a record are trimmed. */
  predicate FieldsTrimmed(u: UserDto) {
    Trimmed(u.samAccountName) && Trimmed(u.displayName.GetOr("")) && Trimmed(u.email.GetOr(""))
  }

  /** What a reader makes of one data row: nothing when both the short name and the
      email are blank, otherwise a record with the three fields and no state; its fields
      are trimmed when the cells are. */
  function RowUser(cols: Columns, parts: seq<string>): (u: Option<UserDto>)
    ensures u.None? <==> IsBlank(Field(parts, cols.sam)) && IsBlank(Field(parts, cols.mail))
    ensures u.Some? ==> IsInputRecord(u.value)
    ensures u.Some? && (forall i | 0 <= i < |parts| :: Trimmed(parts[i])) ==> FieldsTrimmed(u.value)
  {
    var sam := Field(parts, cols.sam);
    var email := Field(parts, cols.mail);
    if IsBlank(sam) && IsBlank(email) then None
    else Some(UserDto(sam, Some(Field(parts, cols.name)), Some(email), None, ""))
  }

  /** The records of the rows, in row order; a row that gives none is skipped. */
  function Collect<T>(read: T -> Option<UserDto>, rows: seq<T>): (us: seq<UserDto>)
    ensures |us| <= |rows|
  {
    if rows == [] then []
    else
      var n := |rows|;
      Collect(read, rows[..n - 1]) + (if read(rows[n - 1]).Some? then [read(rows[n - 1]).value] else [])
  }

  /** The records of rows followed by more rows are those of each, in order. */
  lemma {:induction false} CollectAppend<T>(read: T -> Option<UserDto>, a: seq<T>, b: seq<T>)
    ensures Collect(read, a + b) == Collect(read, a) + Collect(read, b)
  {
    if b == [] {
      assert a + b == a;
    } else {
      var n := |b|;
      assert (a + b)[..|a + b| - 1] == a + b[..n - 1];
      assert (a + b)[|a + b| - 1] == b[n - 1];
      CollectAppend(read, a, b[..n - 1]);
    }
  }

  /** One more row adds its record, if any, at the end. */
  lemma CollectSnoc<T>(read: T -> Option<UserDto>, rows: seq<T>, i: nat)
    requires i < |rows|
    ensures Collect(read, rows[..i + 1])
      == Collect(read, rows[..i]) + (if read(rows[i]).Some? then [read(rows[i]).value] else [])
  {
    assert rows[..i + 1][..i] == rows[..i];
  }

  /** Every record collected is one the reader gives for some row: a property of all of
      those holds of all records. */
  lemma {:induction false} CollectKeeps<T>(read: T -> Option<UserDto>, rows: seq<T>, p: UserDto -> bool)
    requires forall i | 0 <= i < |rows| :: read(rows[i]).Some? ==> p(read(rows[i]).value)
    ensures forall i | 0 <= i < |Collect(read, rows)| :: p(Collect(read, rows)[i])
  {
    if rows != [] {
      var n := |rows|;
      CollectKeeps(read, rows[..n - 1], p);
    }
  }

  /** Every record of a row that gives one is collected, after those of earlier rows. */
  lemma {:induction false} CollectComplete<T>(read: T -> Option<UserDto>, rows: seq<T>, i: nat)
    requires i < |rows| && read(rows[i]).Some?
    ensures read(rows[i]).value in Collect(read, rows)
  {
    CollectAppend(read, rows[..i + 1], rows[i + 1..]);
    assert rows[..i + 1] + rows[i + 1..] == rows;
    CollectSnoc(read, rows, i);
  }

  // ---------------------------------------------------------------------------
  // Delimited text

  /** The candidate delimiters, in order of preference on a tie. */
  const Candidates: seq<char> := ['\t', ',', ';', '|']

  /** The position of the first character of `cs` occurring most often in `line`: the head
      of the stable `OrderByDescending` by count. */
  function BestIndex(line: string, cs: seq<char>): (k: nat)
    requires cs != []
    ensures k < |cs|
    ensures forall j | 0 <= j < |cs| :: Count(line, cs[j]) <= Count(line, cs[k])
    ensures forall j | 0 <= j < k :: Count(line, cs[j]) < Count(line, cs[k])
  {
    var n := |cs|;
    if n == 1 then 0
    else
      var k := BestIndex(line, cs[..n - 1]);
      if Count(line, cs[n - 1]) > Count(line, cs[k]) then n - 1 else k
  }

  /** The delimiter of a file: the candidate occurring most often in the header line. */
  function Delimiter(header: string): char {
    Candidates[BestIndex(header, Candidates)]
  }

  /** A header line without any candidate is split on tabs. */
  lemma DelimiterDefaultsToTab(header: string)
    requires forall j | 0 <= j < |Candidates| :: Candidates[j] !in header
    ensures Delimiter(header) == '\t'
  {
    var k := BestIndex(header, Candidates);
    assert Count(header, Candidates[k]) == 0 by {
      assert Candidates[k] !in header;
    }
    assert Candidates[0] == '\t';
  }

  /** Every piece trimmed (`Select(p => p.Trim())`); the pieces keep no outer white space. */
  function TrimAll(ps: seq<string>): (r: seq<string>)
    ensures |r| == |ps|
    ensures forall i | 0 <= i < |ps| :: r[i] == Trim(ps[i]) && Trimmed(r[i])
  {
    if ps == [] then []
    else
      TrimShape(ps[0]);
      [Trim(ps[0])] + TrimAll(ps[1..])
  }

  /** The trimmed cells of a line. */
  function Cells(line: string, d: char): (r: seq<string>)
    ensures forall i | 0 <= i < |r| :: Trimmed(r[i])
  {
    TrimAll(Split(line, d))
  }

  /** The record of a data line: none for a blank line, otherwise that of its cells. */
  function LineUser(cols: Columns, d: char, line: string): (u: Option<UserDto>)
    ensures u.Some? ==> !IsBlank(line) && IsInputRecord(u.value) && FieldsTrimmed(u.value)
  {
    if IsBlank(line) then None else RowUser(cols, Cells(line, d))
  }

  /** The reader of the data lines once the delimiter and columns are known. */
  function LineReader(cols: Columns, d: char): string -> Option<UserDto> {
    line => LineUser(cols, d, line)
  }

  /** `ReadDelimitedText` over the lines of the file. */
  function DelimitedUsers(lines: seq<string>): Result<seq<UserDto>, ReadError> {
    if |lines| < 2 then Ok([])
    else
      var d := Delimiter(lines[0]);
      match HeaderColumns(Cells(lines[0], d))
      case Err(e) => Err(e)
      case Ok(cols) => Ok(Collect(LineReader(cols, d), lines[1..]))
  }

  /** Every record read from delimited text has a non-blank short name or email, comes
      from a non-blank line, and has trimmed fields. */
  lemma DelimitedRecords(lines: seq<string>)
    ensures var r := DelimitedUsers(lines);
      r.Ok? ==> forall i | 0 <= i < |r.value| :: IsInputRecord(r.value[i]) && FieldsTrimmed(r.value[i])
  {
    if |lines| >= 2 {
      var d := Delimiter(lines[0]);
      var h := HeaderColumns(Cells(lines[0], d));
      if h.Ok? {
        CollectKeeps(LineReader(h.value, d), lines[1..], u => IsInputRecord(u) && FieldsTrimmed(u));
      }
    }
  }

  /** `ReadDelimitedText`: chooses the delimiter from the header line, maps the columns,
      then appends the record of each data line. */
  method ReadDelimitedText(lines: seq<string>) returns (r: Result<seq<UserDto>, ReadError>)
    ensures |lines| < 2 ==> r == Ok([])
    ensures r == DelimitedUsers(lines)
  {
    if |lines| < 2 {
      return Ok([]);
    }
    var d := Delimiter(lines[0]);
    var header := Cells(lines[0], d);
    var mapped := HeaderColumns(header);
    if mapped.Err? {
      return Err(mapped.error);
    }
    var users := ReadLines(mapped.value, d, lines);
    r := Ok(users);
  }

  /** The loop of `ReadDelimitedText` over the data lines. */
  method ReadLines(cols: Columns, d: char, lines: seq<string>) returns (users: seq<UserDto>)
    requires |lines| >= 1
    ensures users == Collect(LineReader(cols, d), lines[1..])
  {
    ghost var read := LineReader(cols, d);
    ghost var data := lines[1..];
    users := [];
    for i := 1 to |lines|
      invariant users == Collect(read, data[..i - 1])
    {
      var u: Option<UserDto> := None;
      if !IsBlank(lines[i]) {
        var parts := Cells(lines[i], d);
        var sam := Field(parts, cols.sam);
        var email := Field(parts, cols.mail);
        if !(IsBlank(sam) && IsBlank(email)) {
          u := Some(UserDto(sam, Some(Field(parts, cols.name)), Some(email), None, ""));
        }
      }
      assert u == read(data[i - 1]) by {
        assert data[i - 1] == lines[i];
      }
      CollectSnoc(read, data, i - 1);
      if u.Some? {
        users := users + [u.value];
      }
    }
    assert data[..|lines| - 1] == data;
  }

  // ---------------------------------------------------------------------------
  // SpreadsheetML rows

  /** A `ss:Cell`: its `ss:Index` attribute (one-based) and the text of its `ss:Data`. */
  datatype XmlCell = XmlCell(index: Option<int>, data: Option<string>)

  /** The text of a cell, trimmed; "" without data. */
  function CellText(c: XmlCell): string {
    Trim(c.data.GetOr(""))
  }

  /** `n` empty strings. */
  function Blanks(n: nat): (r: seq<string>)
    ensures |r| == n && forall i | 0 <= i < n :: r[i] == ""
  {
    seq(n, i => "")
  }

  /** The column (one-based) a cell goes to when the row holds `len` cells: its
      `ss:Index`, or the next column. */
  function Target(len: nat, c: XmlCell): int {
    c.index.GetOr(len + 1)
  }

  /** The row after a cell with text `t` is placed at column `k`: empty strings up to
      column `k - 1` when `k` lies beyond the end, then `t`. */
  function Place(out: seq<string>, k: int, t: string): seq<string> {
    out + Blanks(if k > |out| + 1 then k - 1 - |out| else 0) + [t]
  }

  /** The text lands at column `k` when that lies beyond the end, otherwise right after
      the end; what was there stays, and the gap is empty. */
  lemma PlaceFacts(out: seq<string>, k: int, t: string)
    ensures var r := Place(out, k, t);
      && |r| == (if k > |out| + 1 then k else |out| + 1)
      && r[..|out|] == out
      && r[|r| - 1] == t
      && forall j | |out| <= j < |r| - 1 :: r[j] == ""
  {
    var r := Place(out, k, t);
    assert r[..|out|] == out;
  }

  /** The cell texts of a row, padded as `ss:Index` requires. */
  function PaddedRow(cells: seq<XmlCell>): seq<string> {
    if cells == [] then []
    else
      var prev := PaddedRow(cells[..|cells| - 1]);
      var c := cells[|cells| - 1];
      Place(prev, Target(|prev|, c), CellText(c))
  }

  /** The inner loop of `ReadSpreadsheetXml` over the cells of one row. */
  method ReadRow(cells: seq<XmlCell>) returns (out: seq<string>)
    ensures out == PaddedRow(cells)
  {
    out := [];
    var col := 0;
    for i := 0 to |cells|
      invariant out == PaddedRow(cells[..i]) && col == |out|
    {
      ghost var before := out;
      var index := cells[i].index.GetOr(col + 1);
      while col + 1 < index
        invariant |before| <= col && out == before + Blanks(col - |before|)
        invariant col == |before| || col < index
        decreases index - col
      {
        out := out + [""];
        col := col + 1;
      }
      assert col - |before| == if index > |before| + 1 then index - 1 - |before| else 0;
      var text := Trim(cells[i].data.GetOr(""));
      out := out + [text];
      col := col + 1;
      assert out == Place(before, index, text);
      assert cells[..i + 1][..i] == cells[..i];
    }
    assert cells[..|cells|] == cells;
  }

  /** Cells with `ss:Index` values increasing from 1. */
  predicate Indexed(cells: seq<XmlCell>) {
    && (forall i | 0 <= i < |cells| :: cells[i].index.Some? && cells[i].index.value >= 1)
    && (forall i, j | 0 <= i < j < |cells| :: cells[i].index.value < cells[j].index.value)
  }

  /** A row of indexed cells ends at the last index. */
  lemma {:induction false} IndexedRowLength(cells: seq<XmlCell>)
    requires Indexed(cells)
    ensures |PaddedRow(cells)| == if cells == [] then 0 else cells[|cells| - 1].index.value
  {
    if cells != [] {
      var n := |cells|;
      var init := cells[..n - 1];
      IndexedRowLength(init);
      var prev := PaddedRow(init);
      var last := cells[n - 1];
      PlaceFacts(prev, Target(|prev|, last), CellText(last));
    }
  }

  /** An indexed cell lands at column `index`. */
  lemma {:induction false} IndexedCellLands(cells: seq<XmlCell>, i: nat)
    requires Indexed(cells) && i < |cells|
    ensures cells[i].index.value <= |PaddedRow(cells)|
    ensures PaddedRow(cells)[cells[i].index.value - 1] == CellText(cells[i])
  {
    var n := |cells|;
    var init := cells[..n - 1];
    IndexedRowLength(cells);
    IndexedRowLength(init);
    var prev := PaddedRow(init);
    var last := cells[n - 1];
    PlaceFacts(prev, Target(|prev|, last), CellText(last));
    if i < n - 1 {
      assert init[i] == cells[i];
      IndexedCellLands(init, i);
      assert PaddedRow(cells)[..|prev|][cells[i].index.value - 1] == prev[cells[i].index.value - 1];
    }
  }

  /** Between indexed cells, every column is empty. */
  lemma {:induction false} IndexedGapsEmpty(cells: seq<XmlCell>, j: nat)
    requires Indexed(cells)
    requires j < |PaddedRow(cells)| && forall i | 0 <= i < |cells| :: cells[i].index.value != j + 1
    ensures PaddedRow(cells)[j] == ""
  {
    var n := |cells|;
    var init := cells[..n - 1];
    IndexedRowLength(init);
    var prev := PaddedRow(init);
    var last := cells[n - 1];
    PlaceFacts(prev, Target(|prev|, last), CellText(last));
    if j < |prev| {
      forall i | 0 <= i < n - 1 ensures init[i].index.value != j + 1 {
        assert init[i] == cells[i];
      }
      IndexedGapsEmpty(init, j);
      assert PaddedRow(cells)[..|prev|][j] == prev[j];
    }
  }

  /** Cells without `ss:Index` follow one another. */
  lemma {:induction false} UnindexedCellsFollow(cells: seq<XmlCell>)
    requires forall i | 0 <= i < |cells| :: cells[i].index.None?
    ensures |PaddedRow(cells)| == |cells|
    ensures forall i | 0 <= i < |cells| :: PaddedRow(cells)[i] == CellText(cells[i])
  {
    if cells != [] {
      var n := |cells|;
      UnindexedCellsFollow(cells[..n - 1]);
      var prev := PaddedRow(cells[..n - 1]);
      var r := PaddedRow(cells);
      var last := cells[n - 1];
      PlaceFacts(prev, Target(|prev|, last), CellText(last));
      forall i | 0 <= i < n ensures r[i] == CellText(cells[i]) {
        if i < n - 1 {
          assert r[..|prev|][i] == prev[i];
        }
      }
    }
  }

  /** The reader of the data rows of a worksheet once the columns are known. */
  function RowReader(cols: Columns): seq<string> -> Option<UserDto> {
    parts => RowUser(cols, parts)
  }

  /** `ReadSpreadsheetXml` over the rows of the first `ss:Table` of the document (`None`
      when there is none), each row already padded. */
  function XmlUsers(table: Option<seq<seq<string>>>): Result<seq<UserDto>, ReadError> {
    if table.None? || table.value == [] then Ok([])
    else
      match HeaderColumns(table.value[0])
      case Err(e) => Err(e)
      case Ok(cols) => Ok(Collect(RowReader(cols), table.value[1..]))
  }

  /** Every record read from a worksheet has a non-blank short name or email. */
  lemma XmlRecords(table: Option<seq<seq<string>>>)
    ensures var r := XmlUsers(table);
      r.Ok? ==> forall i | 0 <= i < |r.value| :: IsInputRecord(r.value[i])
  {
    if table.Some? && table.value != [] {
      var h := HeaderColumns(table.value[0]);
      if h.Ok? {
        CollectKeeps(RowReader(h.value), table.value[1..], IsInputRecord);
      }
    }
  }

  /** `ReadSpreadsheetXml`: pads every row, maps the columns of the first, and appends the
      record of each later row. */
  method ReadSpreadsheetXml(table: Option<seq<seq<XmlCell>>>) returns (r: Result<seq<UserDto>, ReadError>)
    ensures table.None? ==> r == Ok([])
    ensures table.Some? ==> r == XmlUsers(Some(seq(|table.value|, i requires 0 <= i < |table.value| => PaddedRow(table.value[i]))))
  {
    if table.None? {
      return Ok([]);
    }
    var xmlRows := table.value;
    var rows: seq<seq<string>> := [];
    for i := 0 to |xmlRows|
      invariant |rows| == i && forall j | 0 <= j < i :: rows[j] == PaddedRow(xmlRows[j])
    {
      var cells := ReadRow(xmlRows[i]);
      rows := rows + [cells];
    }
    assert rows == seq(|xmlRows|, i requires 0 <= i < |xmlRows| => PaddedRow(xmlRows[i]));
    r := ReadRows(rows);
  }

  /** The second half of `ReadSpreadsheetXml`, over the padded rows. */
  method ReadRows(rows: seq<seq<string>>) returns (r: Result<seq<UserDto>, ReadError>)
    ensures rows == [] ==> r == Ok([])
    ensures r == XmlUsers(Some(rows))
  {
    if |rows| == 0 {
      return Ok([]);
    }
    var mapped := HeaderColumns(rows[0]);
    if mapped.Err? {
      return Err(mapped.error);
    }
    var cols := mapped.value;
    ghost var read := RowReader(cols);
    ghost var data := rows[1..];
    var users: seq<UserDto> := [];
    for i := 1 to |rows|
      invariant users == Collect(read, data[..i - 1])
    {
      CollectSnoc(read, data, i - 1);
      assert data[i - 1] == rows[i];
      assert read(rows[i]) == RowUser(cols, rows[i]);
      var sam := Field(rows[i], cols.sam);
      var email := Field(rows[i], cols.mail);
      if IsBlank(sam) && IsBlank(email) {
        continue;
      }
      users := users + [UserDto(sam, Some(Field(rows[i], cols.name)), Some(email), None, "")];
    }
    assert data[..|rows| - 1] == data;
    r := Ok(users);
  }

  // ---------------------------------------------------------------------------
  // Export

  /** The text of the Enabled column: "Yes", "No", or empty when the state is unknown. */
  function EnabledCell(e: Option<bool>): (s: string)
    ensures s == "Yes" <==> e == Some(true)
    ensures s == "No" <==> e == Some(false)
    ensures s == "" <==> e.None?
  {
    match e
    case Some(true) => "Yes"
    case Some(false) => "No"
    case None => ""
  }

  /** The Enabled column keeps the account state: different states give different texts. */
  lemma EnabledCellInjective(a: Option<bool>, b: Option<bool>)
    requires EnabledCell(a) == EnabledCell(b)
    ensures a == b
  {
    assert "Yes" != "No" && "Yes" != "" && "No" != "";
  }

  /** A worksheet: its name and its rows from row 1, each the cells from column 1. */
  datatype Sheet = Sheet(name: string, rows: seq<seq<string>>)

  /** The header row written to every sheet. */
  const HeaderRow: seq<string> := ["SamAccountName", "DisplayName", "Email", "Enabled"]

  /** The four cells of a record; an absent display name or email is empty. */
  function RecordRow(u: UserDto): seq<string> {
    [u.samAccountName, u.displayName.GetOr(""), u.email.GetOr(""), EnabledCell(u.enabled)]
  }

  /** The rows of a sheet holding `data`: the header, then one row per record. */
  function SheetRows(data: seq<UserDto>): (rows: seq<seq<string>>)
    ensures |rows| == |data| + 1 && rows[0] == HeaderRow
    ensures forall k | 0 <= k < |data| :: rows[k + 1] == RecordRow(data[k])
  {
    if data == [] then [HeaderRow]
    else SheetRows(data[..|data| - 1]) + [RecordRow(data[|data| - 1])]
  }

  /** A record can be read back from its row: the short name, and the state from the
      Enabled cell. */
  lemma RecordRowReadBack(u: UserDto, v: UserDto)
    requires RecordRow(u) == RecordRow(v)
    ensures u.samAccountName == v.samAccountName && u.enabled == v.enabled
  {
    assert RecordRow(u)[3] == RecordRow(v)[3];
    EnabledCellInjective(u.enabled, v.enabled);
  }

  /** `AddSheet`: writes the header on row 1, then record after record from row `r = 2`. */
  method AddSheet(name: string, data: seq<UserDto>) returns (ws: Sheet)
    ensures ws == Sheet(name, SheetRows(data))
  {
    var rows := [["SamAccountName", "DisplayName", "Email", "Enabled"]];
    var r := 2;
    for i := 0 to |data|
      invariant r == i + 2 && |rows| == r - 1 && rows == SheetRows(data[..i])
    {
      var u := data[i];
      var enabledText := if u.enabled.Some? then (if u.enabled.value then "Yes" else "No") else "";
      rows := rows + [[u.samAccountName, u.displayName.GetOr(""), u.email.GetOr(""), enabledText]];
      assert data[..i + 1][..i] == data[..i];
      r := r + 1;
    }
    assert data[..|data|] == data;
    ws := Sheet(name, rows);
  }

  /** The workbook of `ExportResults`: one sheet per category, in the order Enabled,
      Disabled, NotFound, External, each holding the records of that category in order. */
  function Workbook(results: seq<UserDto>): seq<Sheet> {
    [Sheet(EnabledTag, SheetRows(WithCategory(results, EnabledTag))),
     Sheet(DisabledTag, SheetRows(WithCategory(results, DisabledTag))),
     Sheet(NotFoundTag, SheetRows(WithCategory(results, NotFoundTag))),
     Sheet(ExternalTag, SheetRows(WithCategory(results, ExternalTag)))]
  }

  /** `ExportResults`, without saving: the four sheets. */
  method ExportResults(results: seq<UserDto>) returns (wb: seq<Sheet>)
    ensures wb == Workbook(results)
  {
    var enabled := AddSheet(EnabledTag, WithCategory(results, EnabledTag));
    var disabled := AddSheet(DisabledTag, WithCategory(results, DisabledTag));
    var notFound := AddSheet(NotFoundTag, WithCategory(results, NotFoundTag));
    var external := AddSheet(ExternalTag, WithCategory(results, ExternalTag));
    wb := [enabled, disabled, notFound, external];
  }

  /** When every record has one of the four categories, the sheets together have one
      data row per record. */
  lemma WorkbookRows(results: seq<UserDto>)
    requires forall i | 0 <= i < |results| :: IsCategory(results[i].category)
    ensures var wb := Workbook(results);
      (|wb[0].rows| - 1) + (|wb[1].rows| - 1) + (|wb[2].rows| - 1) + (|wb[3].rows| - 1) == |results|
  {
    CategoriesPartition(results);
  }

  /** Every record appears, below the header, on the sheet named by its category. */
  lemma RecordOnItsSheet(results: seq<UserDto>, i: nat, s: nat)
    requires i < |results| && s < 4 && results[i].category == Workbook(results)[s].name
    ensures RecordRow(results[i]) in Workbook(results)[s].rows[1..]
  {
    var data := WithCategory(results, results[i].category);
    WithCategoryMembers(results, results[i].category, results[i]);
    var k :| 0 <= k < |data| && data[k] == results[i];
    assert Workbook(results)[s].rows == SheetRows(data);
    assert SheetRows(data)[1..][k] == RecordRow(results[i]);
  }
}
