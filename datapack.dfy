/** Locating data packs: the documentation page lists the available zip
    files in a wiki table whose header names the `Tag`, `File`,
    `Date Updated` and (optionally) `SHA256 Checksum` columns. The page's
    lines are scanned for the rows of one tag, each yielding a download URL,
    a date and a checksum. The page itself, the download and the digest are
    parameters. */
module DataPack {
  import opened Wrappers
  import opened PyStr

  /** Where the zip files are attached by default. */
  const ZipUrlBase: string := "http://sourceforge.net/apps/trac/sutekh/raw-attachment"

  // ---------------------------------------------------------------------
  // Table lines
  // ---------------------------------------------------------------------

  /** The characters `strip(" '")` removes from the ends of a field. */
  predicate IsFieldEdge(c: char) {
    c == ' ' || c == '\''
  }

  /** `fields`: the stripped line split on `||`, each piece stripped of
      spaces and single quotes. */
  function Fields(line: string): seq<string> {
    StripEach(SplitOn(Strip(line), "||"))
  }

  /** Each piece stripped of spaces and single quotes. */
  function StripEach(parts: seq<string>): (fs: seq<string>)
    ensures |fs| == |parts|
    ensures forall k :: 0 <= k < |parts| ==> fs[k] == StripBy(parts[k], IsFieldEdge)
  {
    if |parts| == 0 then [] else [StripBy(parts[0], IsFieldEdge)] + StripEach(parts[1..])
  }

  /** The number of spaces and quotes at the start of `p`. */
  function LeadLen(p: string): (n: nat)
    ensures n <= |p|
  {
    |p| - |LStripBy(p, IsFieldEdge)|
  }

  /** `f` is `p` with the spaces and quotes at both ends taken off: a slice
      of `p` starting after the leading ones, followed only by such
      characters, and neither starting nor ending with one. */
  predicate EdgesStripped(p: string, f: string) {
    var i := LeadLen(p);
    i + |f| <= |p| && p[i..i + |f|] == f &&
    (forall j :: 0 <= j < i ==> IsFieldEdge(p[j])) &&
    (forall j :: i + |f| <= j < |p| ==> IsFieldEdge(p[j])) &&
    (|f| > 0 ==> !IsFieldEdge(f[0]) && !IsFieldEdge(f[|f| - 1]))
  }

  /** What stripping keeps: the middle slice, with only spaces and quotes
      around it and none at its ends. */
  lemma StripByStrips(p: string)
    ensures EdgesStripped(p, StripBy(p, IsFieldEdge))
  {
    var l := LStripBy(p, IsFieldEdge);
    var f := RStripBy(l, IsFieldEdge);
    var i := |p| - |l|;
    assert StripBy(p, IsFieldEdge) == f;
    assert LeadLen(p) == i;
    assert l == p[i..];
    assert f == l[..|f|];
    assert p[i..i + |f|] == f;
    assert forall j :: 0 <= j < i ==> IsFieldEdge(p[j]);
    assert forall j :: |f| <= j < |l| ==> IsFieldEdge(l[j]);
    forall j | i + |f| <= j < |p| ensures IsFieldEdge(p[j]) {
      assert p[j] == l[j - i];
    }
    if |f| > 0 {
      assert f[0] == l[0];
      assert !IsFieldEdge(f[|f| - 1]);
    }
  }

  /** The fields of a line: the pieces between the `||` separators of the
      stripped line, which join back to it, each with the spaces and quotes
      at its ends removed. */
  lemma FieldsShape(line: string)
    ensures Join("||", SplitOn(Strip(line), "||")) == Strip(line)
    ensures |Fields(line)| == |SplitOn(Strip(line), "||")|
    ensures forall k :: 0 <= k < |Fields(line)| ==>
      EdgesStripped(SplitOn(Strip(line), "||")[k], Fields(line)[k])
  {
    var parts := SplitOn(Strip(line), "||");
    JoinSplitOn(Strip(line), "||");
    forall k | 0 <= k < |parts| ensures EdgesStripped(parts[k], Fields(line)[k]) {
      StripByStrips(parts[k]);
    }
  }

  /** `fields.index(x)`: the first position of `x`, if any. */
  function IndexOf(fs: seq<string>, x: string): (r: Option<nat>)
    ensures r.Some? ==> r.value < |fs| && fs[r.value] == x
    ensures r.Some? ==> forall j :: 0 <= j < r.value ==> fs[j] != x
    ensures r.None? <==> x !in fs
  {
    if |fs| == 0 then None
    else if fs[0] == x then Some(0)
    else
      match IndexOf(fs[1..], x)
      case None => assert forall y :: y in fs ==> y == fs[0] || y in fs[1..]; None
      case Some(i) => Some(i + 1)
  }

  /** The part of a line before its first line break: `.` does not match
      one. */
  function UpToBreak(s: string): (r: string)
    ensures r <= s && '\n' !in r
  {
    match Find(s, "\n")
    case None =>
      assert forall j :: 0 <= j < |s| ==> s[j..j + 1] == [s[j]] && !MatchAt(s, "\n", j);
      s
    case Some(i) =>
      assert forall j :: 0 <= j < i ==> s[j..j + 1] == [s[j]] && !MatchAt(s, "\n", j);
      s[..i]
  }

  /** The header pattern `^\|\|.*Tag`: the line starts with `||` and `Tag`
      follows on the same line. */
  predicate IsHeaderLine(line: string) {
    StartsWith(line, "||") && Contains(UpToBreak(line[2..]), "Tag")
  }

  // ---------------------------------------------------------------------
  // Header and rows
  // ---------------------------------------------------------------------

  /** The columns found in the header. */
  datatype Header = Header(tagField: nat, attachField: nat, dateField: nat, shaField: Option<nat>)

  /** What the scan can raise: a header without a `Date Updated` column
      (`index` fails), an attachment path without a `:` (the two-name unpack
      fails), a matching row too short for its checksum or date column. */
  datatype PackError = NoDateColumn | NoZipName | ShortRow

  /** A line read while no header has been found: not a header (or one
      lacking `Tag` or `File`) is skipped; otherwise the column positions, or
      the error when there is no `Date Updated` column. */
  function ReadHeader(line: string): Result<Option<Header>, PackError> {
    if !IsHeaderLine(line) then Ok(None)
    else
      var fs := Fields(line);
      if "Tag" !in fs || "File" !in fs then Ok(None)
      else
        match IndexOf(fs, "Date Updated")
        case None => Err(NoDateColumn)
        case Some(d) =>
          Ok(Some(Header(IndexOf(fs, "Tag").value, IndexOf(fs, "File").value, d,
            IndexOf(fs, "SHA256 Checksum"))))
  }

  /** The attachment pattern `\[attachment:(?P<path>[^ ]*) ` searched for:
      the path is what follows the first `[attachment:` up to the next
      space, and there is no match when no space follows. */
  function Attachment(s: string): Option<string> {
    match Find(s, "[attachment:")
    case None => None
    case Some(i) =>
      match Find(s[i + 12..], " ")
      case None => None
      case Some(j) => Some(s[i + 12..i + 12 + j])
  }

  /** One data pack of the tag: its URL, its date and, when the table has a
      checksum column, its checksum. */
  datatype Entry = Entry(url: string, date: string, hash: Option<string>)

  /** The URL a path names: the zip name is the path before its first `:`,
      the rest of the path has its `:` turned into `/`, and
      `base/path/zipname` is the result. */
  function PathUrl(base: string, path: string): Option<string> {
    match Find(path, ":")
    case None => None
    case Some(c) => Some(base + "/" + Replace(path[c + 1..], ":", "/") + "/" + path[..c])
  }

  /** A line read after the header: a row whose tag field is the tag and
      which has an attachment field with a matching path gives an entry;
      other lines give nothing. */
  function RowEntry(tag: string, base: string, h: Header, fs: seq<string>): Result<Option<Entry>, PackError> {
    if |fs| > h.tagField && tag == fs[h.tagField] && |fs| > h.attachField then
      match Attachment(fs[h.attachField])
      case None => Ok(None)
      case Some(path) =>
        match PathUrl(base, path)
        case None => Err(NoZipName)
        case Some(url) =>
          if h.shaField.Some? && h.shaField.value >= |fs| then Err(ShortRow)
          else if h.dateField >= |fs| then Err(ShortRow)
          else Ok(Some(Entry(url, fs[h.dateField],
            if h.shaField.Some? then Some(fs[h.shaField.value]) else None)))
    else Ok(None)
  }

  /** A path names a URL exactly when it has a `:`; the URL is the base,
      then the path after the zip name with `:` read as `/`, then the zip
      name, which is the path up to its first `:`. */
  lemma PathUrlMeaning(base: string, path: string) returns (c: nat)
    ensures PathUrl(base, path).Some? <==> ':' in path
    ensures PathUrl(base, path).Some? ==>
      c < |path| && path[c] == ':' && ':' !in path[..c] &&
      ':' !in Replace(path[c + 1..], ":", "/") &&
      PathUrl(base, path).value == base + "/" + Replace(path[c + 1..], ":", "/") + "/" + path[..c]
  {
    FindChar(path, ':');
    c := 0;
    var f := Find(path, ":");
    if f.Some? {
      c := f.value;
      ReplaceCharGone(path[c + 1..], ':', "/");
    }
  }

  /** An entry comes from a row whose tag field is the tag, whose
      attachment field names a path with a URL, and which is long enough for
      the date and checksum columns; the entry holds that URL, the date
      field and the checksum field. */
  lemma RowEntryMeaning(tag: string, base: string, h: Header, fs: seq<string>)
    ensures RowEntry(tag, base, h, fs).Ok? && RowEntry(tag, base, h, fs).value.Some? ==>
      var e := RowEntry(tag, base, h, fs).value.value;
      h.tagField < |fs| && fs[h.tagField] == tag && h.attachField < |fs| &&
      Attachment(fs[h.attachField]).Some? &&
      PathUrl(base, Attachment(fs[h.attachField]).value) == Some(e.url) &&
      h.dateField < |fs| && e.date == fs[h.dateField] &&
      (e.hash.Some? <==> h.shaField.Some?) &&
      (h.shaField.Some? ==> h.shaField.value < |fs| && e.hash == Some(fs[h.shaField.value]))
  {
  }

  // ---------------------------------------------------------------------
  // The scan over the page
  // ---------------------------------------------------------------------

  /** The three result lists: URLs, dates and checksums. */
  datatype Packs = Packs(urls: seq<string>, dates: seq<string>, hashes: seq<string>)

  /** An entry appended to each list it has a value for. */
  function AddEntry(p: Packs, e: Entry): Packs {
    Packs(p.urls + [e.url], p.dates + [e.date],
      if e.hash.Some? then p.hashes + [e.hash.value] else p.hashes)
  }

  /** The scan's state: the header once found, and the lists so far. */
  datatype ScanState = ScanState(header: Option<Header>, packs: Packs)

  const Start: ScanState := ScanState(None, Packs([], [], []))

  /** How a row is read under a header: an error, nothing, or an entry. */
  type RowRead = (Header, string) -> Result<Option<Entry>, PackError>

  /** The rows of `tag` as `find_all_data_packs` reads them. */
  function Rows(tag: string, base: string): RowRead {
    (h, line) => RowEntry(tag, base, h, Fields(line))
  }

  /** One line of the page. */
  function StepLine(read: RowRead, st: ScanState, line: string): Result<ScanState, PackError> {
    match st.header
    case None =>
      (match ReadHeader(line)
       case Err(e) => Err(e)
       case Ok(h) => Ok(ScanState(h, st.packs)))
    case Some(h) =>
      (match read(h, line)
       case Err(e) => Err(e)
       case Ok(None) => Ok(st)
       case Ok(Some(e)) => Ok(ScanState(st.header, AddEntry(st.packs, e))))
  }

  /** The lines read in order from a state; an error ends the scan. */
  function ScanFrom(read: RowRead, st: ScanState, lines: seq<string>): Result<ScanState, PackError>
    decreases |lines|
  {
    if |lines| == 0 then Ok(st)
    else
      match ScanFrom(read, st, lines[..|lines| - 1])
      case Err(e) => Err(e)
      case Ok(s) => StepLine(read, s, lines[|lines| - 1])
  }

  /** The scan of a whole page. */
  function ScanWith(read: RowRead, lines: seq<string>): Result<ScanState, PackError> {
    ScanFrom(read, Start, lines)
  }

  /** The scan of a whole page for `tag`. */
  function Scan(tag: string, base: string, lines: seq<string>): Result<ScanState, PackError> {
    ScanWith(Rows(tag, base), lines)
  }

  /** Scanning two pieces in turn is scanning them together. */
  lemma {:induction false} ScanFromConcat(read: RowRead, st: ScanState, a: seq<string>, b: seq<string>)
    ensures ScanFrom(read, st, a + b) ==
      match ScanFrom(read, st, a)
      case Err(e) => Err(e)
      case Ok(s) => ScanFrom(read, s, b)
    decreases |b|
  {
    if |b| == 0 {
      assert a + b == a;
    } else {
      ScanFromConcat(read, st, a, b[..|b| - 1]);
      assert (a + b)[..|a + b| - 1] == a + b[..|b| - 1];
      assert (a + b)[|a + b| - 1] == b[|b| - 1];
    }
  }

  /** Lines that are not an accepted header leave the starting state as it
      is. */
  lemma {:induction false} NoHeaderKeepsStart(read: RowRead, pre: seq<string>)
    requires forall k :: 0 <= k < |pre| ==> ReadHeader(pre[k]) == Ok(None)
    ensures ScanFrom(read, Start, pre) == Ok(Start)
    decreases |pre|
  {
    if |pre| > 0 {
      NoHeaderKeepsStart(read, pre[..|pre| - 1]);
    }
  }

  /** Lines before the header are ignored: whatever they hold, the scan is
      that of the lines from the header on. */
  lemma BeforeHeaderIgnored(tag: string, base: string, pre: seq<string>, rest: seq<string>)
    requires forall k :: 0 <= k < |pre| ==> ReadHeader(pre[k]) == Ok(None)
    ensures Scan(tag, base, pre + rest) == Scan(tag, base, rest)
  {
    NoHeaderKeepsStart(Rows(tag, base), pre);
    ScanFromConcat(Rows(tag, base), Start, pre, rest);
  }

  /** The three lists grow together: as many dates as URLs, and as many
      checksums when the header has a checksum column (none otherwise). */
  predicate Together(st: ScanState) {
    |st.packs.dates| == |st.packs.urls| &&
    |st.packs.hashes| == (if st.header.Some? && st.header.value.shaField.Some? then |st.packs.urls| else 0)
  }

  /** The `k`-th entry of lists that grow together. */
  function EntryAt(st: ScanState, k: nat): Entry
    requires Together(st) && k < |st.packs.urls|
  {
    Entry(st.packs.urls[k], st.packs.dates[k],
      if st.header.Some? && st.header.value.shaField.Some? then Some(st.packs.hashes[k]) else None)
  }

  /** A reading of rows whose entries carry a checksum exactly when the
      header has a checksum column. */
  ghost predicate HashWhenColumn(read: RowRead) {
    forall h, line :: read(h, line).Ok? && read(h, line).value.Some? ==>
      (read(h, line).value.value.hash.Some? <==> h.shaField.Some?)
  }

  /** The rows of a tag are read that way. */
  lemma RowsHashWhenColumn(tag: string, base: string)
    ensures HashWhenColumn(Rows(tag, base))
  {
    forall h, line | Rows(tag, base)(h, line).Ok? && Rows(tag, base)(h, line).value.Some?
      ensures Rows(tag, base)(h, line).value.value.hash.Some? <==> h.shaField.Some?
    {
      RowEntryMeaning(tag, base, h, Fields(line));
    }
  }

  /** Every entry of the lists is the one a line of the page gives under
      the header: the `k`-th entry is given by the line at `rows[k]`. */
  predicate FromRows(read: RowRead, lines: seq<string>, st: ScanState, rows: seq<nat>)
    requires Together(st)
  {
    st.header.Some? && |rows| == |st.packs.urls| &&
    forall k :: 0 <= k < |rows| ==>
      rows[k] < |lines| && read(st.header.value, lines[rows[k]]) == Ok(Some(EntryAt(st, k)))
  }

  /** A line that gives nothing keeps `FromRows`. */
  lemma FromRowsSkip(read: RowRead, lines: seq<string>, line: string, s: ScanState, rows: seq<nat>)
    requires Together(s) && FromRows(read, lines, s, rows)
    ensures FromRows(read, lines + [line], s, rows)
  {
    var all := lines + [line];
    forall k | 0 <= k < |rows| ensures all[rows[k]] == lines[rows[k]] {
    }
  }

  /** Appending an entry keeps the earlier ones where they were. */
  lemma AddEntryKeeps(s: ScanState, e: Entry, k: nat)
    requires Together(s) && k < |s.packs.urls|
    requires s.header.Some? && (e.hash.Some? <==> s.header.value.shaField.Some?)
    ensures Together(ScanState(s.header, AddEntry(s.packs, e)))
    ensures EntryAt(ScanState(s.header, AddEntry(s.packs, e)), k) == EntryAt(s, k)
  {
  }

  /** A line that gives an entry appends it and keeps `FromRows`. */
  lemma FromRowsAdd(read: RowRead, lines: seq<string>, line: string, s: ScanState, e: Entry, rows: seq<nat>)
    requires Together(s) && FromRows(read, lines, s, rows)
    requires read(s.header.value, line) == Ok(Some(e))
    requires e.hash.Some? <==> s.header.value.shaField.Some?
    ensures Together(ScanState(s.header, AddEntry(s.packs, e)))
    ensures FromRows(read, lines + [line], ScanState(s.header, AddEntry(s.packs, e)), rows + [|lines|])
  {
    var st := ScanState(s.header, AddEntry(s.packs, e));
    var all := lines + [line];
    var rs := rows + [|lines|];
    assert Together(st);
    forall k | 0 <= k < |rs|
      ensures rs[k] < |all| && read(s.header.value, all[rs[k]]) == Ok(Some(EntryAt(st, k)))
    {
      if k < |rows| {
        AddEntryKeeps(s, e, k);
        assert rs[k] == rows[k] && all[rows[k]] == lines[rows[k]];
      } else {
        assert EntryAt(st, k) == e;
        assert all[rs[k]] == line;
      }
    }
  }

  /** What a scan that raised nothing has found: lists that grow together,
      nothing before the header, and after it one entry per producing row,
      each the entry its row gives; `rows` says which row. */
  lemma {:induction false} ScanFound(read: RowRead, lines: seq<string>) returns (rows: seq<nat>)
    requires HashWhenColumn(read)
    ensures ScanWith(read, lines).Ok? ==>
      var st := ScanWith(read, lines).value;
      Together(st) &&
      (st.header.None? ==> st.packs == Packs([], [], [])) &&
      (st.header.Some? ==> FromRows(read, lines, st, rows))
    decreases |lines|
  {
    rows := [];
    if |lines| > 0 {
      var n := |lines| - 1;
      var prev := lines[..n];
      var line := lines[n];
      var rows0 := ScanFound(read, prev);
      if ScanWith(read, prev).Ok? && ScanWith(read, lines).Ok? {
        var s := ScanWith(read, prev).value;
        assert prev + [line] == lines;
        if s.header.Some? {
          var row := read(s.header.value, line);
          if row.value.Some? {
            FromRowsAdd(read, prev, line, s, row.value.value, rows0);
            rows := rows0 + [n];
          } else {
            FromRowsSkip(read, prev, line, s, rows0);
            rows := rows0;
          }
        }
      }
    }
  }

  /** The scan of one more line. */
  lemma ScanNext(read: RowRead, lines: seq<string>, i: nat)
    requires i < |lines|
    ensures ScanWith(read, lines[..i + 1]) ==
      match ScanWith(read, lines[..i])
      case Err(e) => Err(e)
      case Ok(s) => StepLine(read, s, lines[i])
  {
    assert lines[..i + 1][..i] == lines[..i];
  }

  /** Once the scan has raised, the rest of the page does not matter. */
  lemma {:induction false} ScanStopped(read: RowRead, lines: seq<string>, i: nat)
    requires i <= |lines| && ScanWith(read, lines[..i]).Err?
    ensures ScanWith(read, lines) == ScanWith(read, lines[..i])
    decreases |lines| - i
  {
    if i < |lines| {
      assert lines[..i + 1][..i] == lines[..i];
      ScanStopped(read, lines, i + 1);
    } else {
      assert lines[..i] == lines;
    }
  }

  /** `find_all_data_packs` for a page: `Ok(None)` when the page could not
      be opened, the three lists when the scan completes, the error it
      raises otherwise. */
  method FindAllDataPacks(tag: string, base: string, page: Option<seq<string>>)
    returns (r: Result<Option<Packs>, PackError>)
    ensures page.None? ==> r == Ok(None)
    ensures page.Some? ==> r == match Scan(tag, base, page.value)
      case Ok(st) => Ok(Some(st.packs))
      case Err(e) => Err(e)
  {
    if page.None? {
      return Ok(None);
    }
    var lines := page.value;
    var tagField: Option<nat> := None;
    var attachField: nat := 0;
    var dateField: nat := 0;
    var shaField: Option<nat> := None;
    var urls: seq<string> := [];
    var dates: seq<string> := [];
    var hashes: seq<string> := [];
    var i := 0;
    while i < |lines|
      invariant 0 <= i <= |lines|
      invariant Scan(tag, base, lines[..i]) == Ok(ScanState(
        if tagField.Some? then Some(Header(tagField.value, attachField, dateField, shaField)) else None,
        Packs(urls, dates, hashes)))
    {
      var line := lines[i];
      ScanNext(Rows(tag, base), lines, i);
      if tagField.None? {
        var h := ReadHeader(line);
        if h.Err? {
          ScanStopped(Rows(tag, base), lines, i + 1);
          return Err(h.error);
        }
        if h.value.Some? {
          tagField := Some(h.value.value.tagField);
          attachField := h.value.value.attachField;
          dateField := h.value.value.dateField;
          shaField := h.value.value.shaField;
        }
      } else {
        var e := RowEntry(tag, base, Header(tagField.value, attachField, dateField, shaField), Fields(line));
        if e.Err? {
          ScanStopped(Rows(tag, base), lines, i + 1);
          return Err(e.error);
        }
        if e.value.Some? {
          urls := urls + [e.value.value.url];
          dates := dates + [e.value.value.date];
          if e.value.value.hash.Some? {
            hashes := hashes + [e.value.value.hash.value];
          }
        }
      }
      i := i + 1;
    }
    assert lines[..i] == lines;
    return Ok(Some(Packs(urls, dates, hashes)));
  }

  // ---------------------------------------------------------------------
  // find_data_pack
  // ---------------------------------------------------------------------

  /** The last URL and, when checksums were found, the last checksum;
      `(None, None)` when there is no URL. */
  function Latest(p: Packs): (Option<string>, Option<string>) {
    if |p.urls| == 0 then (None, None)
    else if |p.hashes| == 0 then (Some(p.urls[|p.urls| - 1]), None)
    else (Some(p.urls[|p.urls| - 1]), Some(p.hashes[|p.hashes| - 1]))
  }

  /** The row the latest URL of a scan comes from, which also gives the
      latest checksum. */
  lemma LatestRow(read: RowRead, lines: seq<string>) returns (j: nat)
    requires HashWhenColumn(read)
    ensures ScanWith(read, lines).Ok? && Latest(ScanWith(read, lines).value.packs).0.Some? ==>
      var st := ScanWith(read, lines).value;
      st.header.Some? && j < |lines| &&
      var row := read(st.header.value, lines[j]);
      row.Ok? && row.value.Some? &&
      row.value.value.url == Latest(st.packs).0.value &&
      row.value.value.hash == Latest(st.packs).1
  {
    var rows := ScanFound(read, lines);
    j := 0;
    if ScanWith(read, lines).Ok? && |ScanWith(read, lines).value.packs.urls| > 0 {
      j := LastEntry(read, lines, ScanWith(read, lines).value, rows);
    }
  }

  /** The last entry of lists whose entries come from rows is given by the
      last of those rows, and it holds the latest URL and checksum. */
  lemma LastEntry(read: RowRead, lines: seq<string>, st: ScanState, rows: seq<nat>) returns (j: nat)
    requires Together(st) && FromRows(read, lines, st, rows) && |st.packs.urls| > 0
    ensures j < |lines| && read(st.header.value, lines[j]) == Ok(Some(EntryAt(st, |st.packs.urls| - 1)))
    ensures EntryAt(st, |st.packs.urls| - 1).url == Latest(st.packs).0.value
    ensures EntryAt(st, |st.packs.urls| - 1).hash == Latest(st.packs).1
  {
    j := rows[|rows| - 1];
  }

  /** `find_data_pack`: the latest URL and checksum of the scan. */
  function FindDataPack(tag: string, base: string, page: Option<seq<string>>): Result<(Option<string>, Option<string>), PackError> {
    if page.None? then Ok((None, None))
    else
      match Scan(tag, base, page.value)
      case Err(e) => Err(e)
      case Ok(st) => Ok(Latest(st.packs))
  }

  /** The URL `find_data_pack` returns is one a row of the page gives, and
      the checksum it returns is that same row's: the last checksum belongs
      to the last URL because the lists grow together. */
  lemma FindDataPackRow(tag: string, base: string, page: Option<seq<string>>) returns (j: nat)
    ensures FindDataPack(tag, base, page).Ok? && FindDataPack(tag, base, page).value.0.Some? ==>
      page.Some? && j < |page.value| &&
      var st := Scan(tag, base, page.value).value;
      st.header.Some? &&
      var row := Rows(tag, base)(st.header.value, page.value[j]);
      row.Ok? && row.value.Some? &&
      row.value.value.url == FindDataPack(tag, base, page).value.0.value &&
      row.value.value.hash == FindDataPack(tag, base, page).value.1
  {
    j := 0;
    if page.Some? {
      RowsHashWhenColumn(tag, base);
      j := LatestRow(Rows(tag, base), page.value);
    }
  }

  /** A row gives an entry only when one of its fields is the tag. */
  lemma RowsHaveTag(tag: string, base: string)
    ensures forall h, line :: Rows(tag, base)(h, line).Ok? && Rows(tag, base)(h, line).value.Some? ==>
      tag in Fields(line)
  {
    forall h, line | Rows(tag, base)(h, line).Ok? && Rows(tag, base)(h, line).value.Some?
      ensures tag in Fields(line)
    {
      RowEntryMeaning(tag, base, h, Fields(line));
    }
  }

  /** A page on which no line has a field equal to the tag gives
      `(None, None)` (or the error the scan raises). */
  lemma FindDataPackNone(tag: string, base: string, page: Option<seq<string>>)
    requires page.Some? ==> forall j :: 0 <= j < |page.value| ==> tag !in Fields(page.value[j])
    ensures FindDataPack(tag, base, page).Ok? ==> FindDataPack(tag, base, page).value == (None, None)
  {
    var j := FindDataPackRow(tag, base, page);
    RowsHaveTag(tag, base);
  }

  // ---------------------------------------------------------------------
  // fetch_data
  // ---------------------------------------------------------------------

  /** The size of a download step. */
  const Chunk: int := 10000

  /** The progress total: the number of steps, one more for a partial last
      step. Python's `//` floors, as Dafny's `/` does for a positive
      divisor. */
  function ProgressTotal(length: int): (t: int)
    ensures (t - 1) * Chunk < length <= t * Chunk
  {
    (length + Chunk - 1) / Chunk
  }

  /** The check after a download: with a checksum given, a digest function
      available and data obtained, a digest that differs raises
      `HashError` carrying the data; otherwise the data is returned. */
  function CheckHash(hash: Option<string>, digest: Option<string -> string>, data: Option<string>)
    : (r: Result<Option<string>, string>)
    ensures r.Err? <==> hash.Some? && digest.Some? && data.Some? && digest.value(data.value) != hash.value
    ensures r.Err? ==> r.error == data.value
    ensures r.Ok? ==> r.value == data
  {
    if hash.Some? && digest.Some? && data.Some? && digest.value(data.value) != hash.value then
      Err(data.value)
    else Ok(data)
  }
}
