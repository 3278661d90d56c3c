/**
  The CSV exporter of scripts/geetorus-commit-metrics.ts, and a reader for
  section 2 rules 5 to 7 of RFC 4180 with LF as the record end.  The reader
  knows nothing of the printer; the two are inverse.
 */
module CsvExport {

  datatype Option<+T> = None | Some(value: T)

  datatype CachedCommit = CachedCommit(
    sha: string, committedAt: Option<string>, repository: string, repositoryUrl: string, htmlUrl: string,
    authorLogin: Option<string>, authorName: Option<string>, authorEmail: Option<string>,
    contributors: seq<Contributor>)

  datatype Contributor = Contributor(login: Option<string>, displayName: string)

  datatype CommitStats = CommitStats(additions: nat, deletions: nat, total: nat)

  datatype ExportResult = Exported(text: string) | MissingCommit(sha: string)

  // ---------------------------------------------------------------- printer

  predicate NeedsQuotes(value: string) {
    ',' in value || '"' in value || '\n' in value
  }

  function DoubleQuotes(value: string): string
  {
    if value == "" then ""
    else (if value[0] == '"' then "\"\"" else [value[0]]) + DoubleQuotes(value[1..])
  }

  function EscapeCsv(value: string): string
  {
    if NeedsQuotes(value) then "\"" + DoubleQuotes(value) + "\"" else value
  }

  function Join(parts: seq<string>, separator: char): string
  {
    if parts == [] then ""
    else if |parts| == 1 then parts[0]
    else parts[0] + [separator] + Join(parts[1..], separator)
  }

  function EscapeAll(fields: seq<string>): (escaped: seq<string>)
    ensures |escaped| == |fields|
    ensures forall i :: 0 <= i < |fields| ==> escaped[i] == EscapeCsv(fields[i])
  {
    if fields == [] then [] else [EscapeCsv(fields[0])] + EscapeAll(fields[1..])
  }

  function Record(fields: seq<string>): string {
    Join(EscapeAll(fields), ',')
  }

  function OrEmpty(value: Option<string>): string {
    if value.Some? then value.value else ""
  }

  function Digit(d: nat): char
    requires d < 10
  {
    "0123456789"[d]
  }

  function Decimal(n: nat): string
  {
    if n < 10 then [Digit(n)] else Decimal(n / 10) + [Digit(n % 10)]
  }

  function ContributorNames(contributors: seq<Contributor>): string
  {
    if contributors == [] then ""
    else
      var name := if contributors[0].login.Some? then contributors[0].login.value else contributors[0].displayName;
      if |contributors| == 1 then name else name + " | " + ContributorNames(contributors[1..])
  }

  const HEADER: seq<string> := [
    "committedAt", "repository", "repositoryUrl", "sha", "commitUrl", "authorLogin", "authorName",
    "authorEmail", "contributors", "additions", "deletions", "totalChanges"]

  /** The twelve columns of one commit; missing statistics print as zero. */
  function ExportRow(commit: CachedCommit, stats: Option<CommitStats>): (row: seq<string>)
    ensures |row| == |HEADER|
  {
    var s := if stats.Some? then stats.value else CommitStats(0, 0, 0);
    [OrEmpty(commit.committedAt), commit.repository, commit.repositoryUrl, commit.sha, commit.htmlUrl,
     OrEmpty(commit.authorLogin), OrEmpty(commit.authorName), OrEmpty(commit.authorEmail),
     ContributorNames(commit.contributors), Decimal(s.additions), Decimal(s.deletions), Decimal(s.total)]
  }

  // --------------------------------------------------------------- columns

  /** The number a decimal numeral stands for. */
  function NumberOf(digits: string): nat
    requires forall i :: 0 <= i < |digits| ==> '0' <= digits[i] <= '9'
  {
    if digits == "" then 0
    else 10 * NumberOf(digits[..|digits| - 1]) + (digits[|digits| - 1] as int - '0' as int)
  }

  /** A number prints as its numeral, without leading zeros. */
  lemma {:induction false} DecimalReadsBack(n: nat)
    ensures Decimal(n) != "" && forall i :: 0 <= i < |Decimal(n)| ==> '0' <= Decimal(n)[i] <= '9'
    ensures NumberOf(Decimal(n)) == n
    ensures Decimal(n)[0] == '0' ==> Decimal(n) == "0"
  {
    if n >= 10 {
      DecimalReadsBack(n / 10);
      assert Decimal(n)[..|Decimal(n)| - 1] == Decimal(n / 10);
      assert Decimal(n)[0] == Decimal(n / 10)[0];
    } else {
      assert Decimal(n)[..0] == "";
    }
  }

  function NameOf(contributor: Contributor): string {
    match contributor.login
    case Some(login) => login
    case None => contributor.displayName
  }

  /** The names of the contributors stand in order, with a bar between any two. */
  lemma {:induction false} NamesJoin(a: seq<Contributor>, b: seq<Contributor>)
    requires a != [] && b != []
    ensures ContributorNames(a + b) == ContributorNames(a) + " | " + ContributorNames(b)
  {
    assert (a + b)[1..] == a[1..] + b;
    if |a| > 1 {
      NamesJoin(a[1..], b);
    }
  }

  lemma OneName(contributor: Contributor)
    ensures ContributorNames([contributor]) == NameOf(contributor) && ContributorNames([]) == ""
  {
  }

  /** Which column holds what. */
  lemma ColumnsOf(commit: CachedCommit, stats: Option<CommitStats>)
    ensures var row := ExportRow(commit, stats);
      && (row[0] == match commit.committedAt case Some(text) => text case None => "")
      && row[1] == commit.repository && row[2] == commit.repositoryUrl && row[3] == commit.sha && row[4] == commit.htmlUrl
      && (row[5] == match commit.authorLogin case Some(text) => text case None => "")
      && (row[6] == match commit.authorName case Some(text) => text case None => "")
      && (row[7] == match commit.authorEmail case Some(text) => text case None => "")
      && row[8] == ContributorNames(commit.contributors)
    ensures var row := ExportRow(commit, stats);
      (stats == None ==> row[9] == row[10] == row[11] == "0")
      && (stats.Some? ==>
            && row[9] == Decimal(stats.value.additions) && row[10] == Decimal(stats.value.deletions)
            && row[11] == Decimal(stats.value.total))
  {
  }

  // ----------------------------------------------------------------- reader

  predicate EndsField(c: char) {
    c == ',' || c == '\n'
  }

  /** An unquoted field: rule 5 forbids a quote inside it. */
  function ReadPlain(text: string): (r: Option<(string, string)>)
    ensures r.Some? ==> |r.value.1| <= |text|
  {
    if text == "" || text[0] == '"' then None
    else if EndsField(text[0]) then Some(("", text))
    else
      match ReadPlain(text[1..])
      case None => None
      case Some((field, rest)) => Some(([text[0]] + field, rest))
  }

  /** The inside of a quoted field: rule 7 reads a doubled quote as one. */
  function ReadQuoted(text: string): (r: Option<(string, string)>)
    ensures r.Some? ==> |r.value.1| < |text|
  {
    if text == "" then None
    else if text[0] != '"' then
      match ReadQuoted(text[1..])
      case None => None
      case Some((field, rest)) => Some(([text[0]] + field, rest))
    else if |text| > 1 && text[1] == '"' then
      match ReadQuoted(text[2..])
      case None => None
      case Some((field, rest)) => Some(("\"" + field, rest))
    else Some(("", text[1..]))
  }

  function ReadField(text: string): (r: Option<(string, string)>)
    ensures r.Some? ==> |r.value.1| <= |text|
  {
    if text != "" && text[0] == '"' then ReadQuoted(text[1..]) else ReadPlain(text)
  }

  function ReadRecord(text: string): (r: Option<(seq<string>, string)>)
    ensures r.Some? ==> |r.value.1| < |text|
    decreases |text|
  {
    match ReadField(text)
    case None => None
    case Some((field, rest)) =>
      if rest == "" || !EndsField(rest[0]) then None
      else if rest[0] == '\n' then Some(([field], rest[1..]))
      else
        match ReadRecord(rest[1..])
        case None => None
        case Some((fields, after)) => Some(([field] + fields, after))
  }

  function ReadTable(text: string): Option<seq<seq<string>>>
    decreases |text|
  {
    if text == "" then Some([])
    else
      match ReadRecord(text)
      case None => None
      case Some((fields, rest)) =>
        match ReadTable(rest)
        case None => None
        case Some(rows) => Some([fields] + rows)
  }

  // ------------------------------------------------------------- round trip

  lemma {:induction false} PlainRoundTrip(value: string, after: string)
    requires !NeedsQuotes(value) && after != "" && EndsField(after[0])
    ensures ReadPlain(value + after) == Some((value, after))
  {
    if value == "" {
      assert value + after == after;
    } else {
      assert (value + after)[1..] == value[1..] + after;
      PlainRoundTrip(value[1..], after);
      assert [value[0]] + value[1..] == value;
    }
  }

  lemma {:induction false} QuotedRoundTrip(value: string, after: string)
    requires after != "" && EndsField(after[0])
    ensures ReadQuoted(DoubleQuotes(value) + "\"" + after) == Some((value, after))
  {
    var text := DoubleQuotes(value) + "\"" + after;
    if value == "" {
      assert text == "\"" + after;
      assert text[1..] == after;
    } else {
      var tail := DoubleQuotes(value[1..]) + "\"" + after;
      QuotedRoundTrip(value[1..], after);
      assert [value[0]] + value[1..] == value;
      if value[0] == '"' {
        assert text == "\"\"" + tail;
        assert text[2..] == tail;
      } else {
        assert text == [value[0]] + tail;
        assert text[1..] == tail;
      }
    }
  }

  /** Any field value at all survives escaping. */
  lemma FieldRoundTrip(value: string, after: string)
    requires after != "" && EndsField(after[0])
    ensures ReadField(EscapeCsv(value) + after) == Some((value, after))
  {
    if NeedsQuotes(value) {
      var text := EscapeCsv(value) + after;
      assert text[1..] == DoubleQuotes(value) + "\"" + after;
      QuotedRoundTrip(value, after);
    } else {
      PlainRoundTrip(value, after);
      assert value + after != "" && (value + after)[0] != '"';
    }
  }

  lemma {:induction false} RecordRoundTrip(fields: seq<string>, after: string)
    requires fields != []
    ensures ReadRecord(Record(fields) + "\n" + after) == Some((fields, after))
  {
    var text := Record(fields) + "\n" + after;
    if |fields| == 1 {
      FieldRoundTrip(fields[0], "\n" + after);
      assert text == EscapeCsv(fields[0]) + ("\n" + after);
      assert ("\n" + after)[1..] == after;
      assert fields == [fields[0]];
    } else {
      var rest := Record(fields[1..]) + "\n" + after;
      assert EscapeAll(fields)[1..] == EscapeAll(fields[1..]);
      assert text == EscapeCsv(fields[0]) + ("," + rest);
      FieldRoundTrip(fields[0], "," + rest);
      assert ("," + rest)[1..] == rest;
      RecordRoundTrip(fields[1..], after);
      assert [fields[0]] + fields[1..] == fields;
    }
  }

  /** One line a record, each ended by LF. */
  function Lines(rows: seq<seq<string>>): string
  {
    if rows == [] then "" else Record(rows[0]) + "\n" + Lines(rows[1..])
  }

  /** The printed table reads back as the table, whatever its fields contain. */
  lemma {:induction false} TableRoundTrip(rows: seq<seq<string>>)
    requires forall i :: 0 <= i < |rows| ==> rows[i] != []
    ensures ReadTable(Lines(rows)) == Some(rows)
  {
    if rows != [] {
      RecordRoundTrip(rows[0], Lines(rows[1..]));
      assert Lines(rows) == Record(rows[0]) + "\n" + Lines(rows[1..]) != "";
      TableRoundTrip(rows[1..]);
      assert [rows[0]] + rows[1..] == rows;
    }
  }

  /** Two tables that print alike are the same table. */
  lemma {:induction false} PrinterInjective(a: seq<seq<string>>, b: seq<seq<string>>)
    requires forall i :: 0 <= i < |a| ==> a[i] != []
    requires forall i :: 0 <= i < |b| ==> b[i] != []
    requires Lines(a) == Lines(b)
    ensures a == b
  {
    TableRoundTrip(a);
    TableRoundTrip(b);
  }

  // ----------------------------------------------------------------- export

  function RecordsOf(rows: seq<seq<string>>): (lines: seq<string>)
    ensures |lines| == |rows|
  {
    if rows == [] then [] else [Record(rows[0])] + RecordsOf(rows[1..])
  }

  lemma {:induction false} RecordsOfAppend(rows: seq<seq<string>>, row: seq<string>)
    ensures RecordsOf(rows + [row]) == RecordsOf(rows) + [Record(row)]
  {
    if rows == [] {
      assert rows + [row] == [row];
      assert RecordsOf([row]) == [Record(row)] + RecordsOf([row][1..]);
    } else {
      assert (rows + [row])[1..] == rows[1..] + [row];
      RecordsOfAppend(rows[1..], row);
    }
  }

  lemma {:induction false} JoinIsLines(rows: seq<seq<string>>)
    requires rows != []
    ensures Join(RecordsOf(rows), '\n') + "\n" == Lines(rows)
  {
    if |rows| == 1 {
      assert rows[1..] == [];
      assert Lines(rows) == Record(rows[0]) + "\n" + "";
    } else {
      assert RecordsOf(rows)[1..] == RecordsOf(rows[1..]);
      JoinIsLines(rows[1..]);
    }
  }

  /** The unescaped header line is what escaping it would give. */
  lemma HeaderNeedsNoEscape()
    ensures Record(HEADER) == Join(HEADER, ',')
  {
    assert EscapeAll(HEADER) == HEADER by {
      forall i | 0 <= i < |HEADER| ensures !NeedsQuotes(HEADER[i]) {
      }
    }
  }

  function StatsOf(stats: map<string, CommitStats>, sha: string): Option<CommitStats> {
    if sha in stats then Some(stats[sha]) else None
  }

  function BuildExportRow(commits: map<string, CachedCommit>, stats: map<string, CommitStats>, sha: string): (row: seq<string>)
    requires sha in commits
    ensures row != []
  {
    ExportRow(commits[sha], StatsOf(stats, sha))
  }

  /** The row of a sha is that of its commit, with the statistics stored for it, if any are. */
  lemma RowOf(commits: map<string, CachedCommit>, stats: map<string, CommitStats>, sha: string)
    requires sha in commits
    ensures BuildExportRow(commits, stats, sha) == ExportRow(commits[sha], if sha in stats then Some(stats[sha]) else None)
  {
  }

  ghost predicate AllKnown(commits: map<string, CachedCommit>, shas: seq<string>) {
    forall i :: 0 <= i < |shas| ==> shas[i] in commits
  }

  /** The table the export stands for: the header and one row a commit, in the order given. */
  ghost function TableOf(commits: map<string, CachedCommit>, stats: map<string, CommitStats>, shas: seq<string>): (table: seq<seq<string>>)
    requires AllKnown(commits, shas)
    ensures |table| == 1 + |shas| && table[0] == HEADER
    ensures forall i :: 0 <= i < |shas| ==> table[i + 1] == BuildExportRow(commits, stats, shas[i])
  {
    [HEADER] + seq(|shas|, i requires 0 <= i < |shas| => BuildExportRow(commits, stats, shas[i]))
  }

  lemma KnownGrows(commits: map<string, CachedCommit>, shas: seq<string>, i: nat)
    requires i < |shas| && AllKnown(commits, shas[..i])
    ensures AllKnown(commits, shas[..i + 1]) <==> shas[i] in commits
  {
    assert shas[..i + 1] == shas[..i] + [shas[i]];
    assert shas[..i + 1][i] == shas[i];
  }

  lemma TableGrows(commits: map<string, CachedCommit>, stats: map<string, CommitStats>, shas: seq<string>, i: nat)
    requires i < |shas| && AllKnown(commits, shas[..i + 1])
    ensures AllKnown(commits, shas[..i]) && shas[i] in commits
    ensures TableOf(commits, stats, shas[..i + 1]) == TableOf(commits, stats, shas[..i]) + [BuildExportRow(commits, stats, shas[i])]
  {
    assert shas[..i + 1][i] in commits;
    forall j | 0 <= j < i ensures shas[..i][j] in commits {
      assert shas[..i + 1][j] in commits;
    }
  }

  /**
    Writes the CSV file.  It throws at the first sha without a cached commit,
    and otherwise the text reads back as exactly the header and one row a sha.
   */
  method WriteExport(commits: map<string, CachedCommit>, stats: map<string, CommitStats>, shas: seq<string>)
    returns (result: ExportResult)
    ensures result.Exported? <==> AllKnown(commits, shas)
    ensures result.Exported? ==> ReadTable(result.text) == Some(TableOf(commits, stats, shas))
    ensures result.MissingCommit? ==>
      exists i :: 0 <= i < |shas| && result.sha == shas[i] && shas[i] !in commits && AllKnown(commits, shas[..i])
  {
    HeaderNeedsNoEscape();
    var lines := [Join(HEADER, ',')];
    assert TableOf(commits, stats, shas[..0]) == [HEADER];
    RecordsOfAppend([], HEADER);
    assert [] + [HEADER] == [HEADER];
    for i := 0 to |shas|
      invariant AllKnown(commits, shas[..i])
      invariant lines == RecordsOf(TableOf(commits, stats, shas[..i]))
    {
      var sha := shas[i];
      if sha !in commits {
        assert !AllKnown(commits, shas);
        return MissingCommit(sha);
      }
      var row := BuildExportRow(commits, stats, sha);
      KnownGrows(commits, shas, i);
      TableGrows(commits, stats, shas, i);
      RecordsOfAppend(TableOf(commits, stats, shas[..i]), row);
      lines := lines + [Record(row)];
    }
    assert shas[..|shas|] == shas;
    TableReadsBack(commits, stats, shas);
    result := Exported(Join(lines, '\n') + "\n");
  }

  lemma TableReadsBack(commits: map<string, CachedCommit>, stats: map<string, CommitStats>, shas: seq<string>)
    requires AllKnown(commits, shas)
    ensures var table := TableOf(commits, stats, shas);
      ReadTable(Join(RecordsOf(table), '\n') + "\n") == Some(table)
  {
    var table := TableOf(commits, stats, shas);
    forall i | 0 <= i < |table| ensures table[i] != [] {
      if i > 0 {
        assert table[(i - 1) + 1] == BuildExportRow(commits, stats, shas[i - 1]);
      }
    }
    JoinIsLines(table);
    TableRoundTrip(table);
  }
}
