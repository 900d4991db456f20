/** The export button: the vote log as CSV text. The header row is the keys
    of a vote record; each vote gives one row of its fields, each wrapped in
    double quotes; rows are joined by newlines. An empty log exports nothing.
    `Split` reads text back into parts, so that the shape of the text can be
    stated as a round trip. */
module Export {
  import opened Wrappers
  import opened Catalog
  import opened Store

  /** `Object.keys(state.votes[0])`: the keys of a record in the order `vote` writes them. */
  const Headers: seq<string> := ["ts", "segmento", "contexto", "A", "B", "ganador"]

  /** `v[h]`; a key a record does not have renders as `undefined`. */
  function Field(v: VoteRecord, h: string): string {
    if h == "ts" then v.ts
    else if h == "segmento" then v.segmento
    else if h == "contexto" then v.contexto
    else if h == "A" then v.A
    else if h == "B" then v.B
    else if h == "ganador" then v.ganador
    else "undefined"
  }

  /** `"${x}"`. */
  function Quote(x: string): string {
    "\"" + x + "\""
  }

  /** `parts.join(sep)`. */
  function Join(parts: seq<string>, sep: char): string {
    if |parts| == 0 then ""
    else if |parts| == 1 then parts[0]
    else parts[0] + [sep] + Join(parts[1..], sep)
  }

  /** The position of the first `c` in `s`. */
  function IndexOf(s: string, c: char): (i: nat)
    requires c in s
    ensures i < |s| && s[i] == c && c !in s[..i]
  {
    if s[0] == c then 0
    else
      assert c in s[1..];
      var j := IndexOf(s[1..], c);
      assert s[..j + 1] == [s[0]] + s[1..][..j];
      j + 1
  }

  /** The pieces of `s` between occurrences of `sep`, like `s.split(sep)`. */
  function Split(s: string, sep: char): (parts: seq<string>)
    ensures |parts| >= 1
    decreases |s|
  {
    if sep !in s then [s]
    else
      var i := IndexOf(s, sep);
      [s[..i]] + Split(s[i + 1..], sep)
  }

  /** Splitting the text of a join gives back the parts, as long as no part
      contains the separator. */
  lemma {:induction false} SplitJoin(parts: seq<string>, sep: char)
    requires |parts| >= 1
    requires forall i :: 0 <= i < |parts| ==> sep !in parts[i]
    ensures Split(Join(parts, sep), sep) == parts
    decreases |parts|
  {
    if |parts| > 1 {
      var p, rest := parts[0], Join(parts[1..], sep);
      JoinCons(parts, sep);
      SplitCons(p, sep, rest);
      SplitJoin(parts[1..], sep);
      assert parts == [p] + parts[1..];
    }
  }

  /** A join of two or more parts is the first part, the separator and the
      join of the rest. */
  lemma JoinCons(parts: seq<string>, sep: char)
    requires |parts| > 1
    ensures Join(parts, sep) == parts[0] + [sep] + Join(parts[1..], sep)
  {
  }

  /** Splitting text that starts with a piece free of the separator. */
  lemma SplitCons(p: string, sep: char, rest: string)
    requires sep !in p
    ensures Split(p + [sep] + rest, sep) == [p] + Split(rest, sep)
  {
    var s := p + [sep] + rest;
    assert s[|p|] == sep && s[..|p|] == p;
    var i := IndexOf(s, sep);
    assert i == |p| by {
      assert i <= |p|;
      assert s[..i] == p[..i];
    }
    assert s[i + 1..] == rest;
  }

  /** A join contains a character only if a part or the separator does. */
  lemma {:induction false} JoinWithout(parts: seq<string>, sep: char, c: char)
    requires c != sep
    requires forall i :: 0 <= i < |parts| ==> c !in parts[i]
    ensures c !in Join(parts, sep)
    decreases |parts|
  {
    if |parts| > 1 {
      JoinWithout(parts[1..], sep, c);
    }
  }

  /** `headers.join(",")`. */
  function HeaderLine(): string {
    Join(Headers, ',')
  }

  /** The quoted fields of one vote. */
  function QuotedFields(v: VoteRecord): seq<string> {
    seq(|Headers|, i requires 0 <= i < |Headers| => Quote(Field(v, Headers[i])))
  }

  /** `headers.map(h => `"${v[h]}"`).join(",")`. */
  function Row(v: VoteRecord): string {
    Join(QuotedFields(v), ',')
  }

  function Rows(votes: seq<VoteRecord>): seq<string> {
    seq(|votes|, i requires 0 <= i < |votes| => Row(votes[i]))
  }

  /** The CSV text of the log; `None` when the log is empty ("No hay votos aún."). */
  function Csv(votes: seq<VoteRecord>): (csv: Option<string>)
    ensures csv.None? <==> votes == []
  {
    if votes == [] then None
    else Some(Join([HeaderLine()] + Rows(votes), '\n'))
  }

  /** Text with no line break and no comma, as are the song names, the
      segment and context keys and ISO timestamps. */
  predicate PlainText(x: string) {
    '\n' !in x && ',' !in x
  }

  /** No field of the record breaks a line. */
  predicate OneLine(v: VoteRecord) {
    forall h :: h in Headers ==> '\n' !in Field(v, h)
  }

  /** No field of the record breaks a line or holds a comma. */
  predicate PlainRecord(v: VoteRecord) {
    forall h :: h in Headers ==> PlainText(Field(v, h))
  }

  lemma PlainByIndex(x: string)
    requires forall i :: 0 <= i < |x| ==> x[i] != ',' && x[i] != '\n'
    ensures PlainText(x)
  {
  }

  /** The song titles are plain text. */
  lemma SongsPlain()
    ensures forall s :: s in Songs ==> PlainText(s)
  {
    PlainByIndex(Songs[0]);
    PlainByIndex(Songs[1]);
    PlainByIndex(Songs[2]);
    PlainByIndex(Songs[3]);
    PlainByIndex(Songs[4]);
    PlainByIndex(Songs[5]);
    PlainByIndex(Songs[6]);
    PlainByIndex(Songs[7]);
    PlainByIndex(Songs[8]);
    PlainByIndex(Songs[9]);
  }

  /** The segment and context keys are plain text. */
  lemma KeysPlain()
    ensures forall s :: s in SegmentKeys ==> PlainText(s)
    ensures forall s :: s in ContextKeys ==> PlainText(s)
  {
    forall s | s in SegmentKeys || s in ContextKeys ensures PlainText(s) {
      PlainByIndex(s);
    }
  }

  /** A record `vote` writes with a plain timestamp (as an ISO date is) is
      plain throughout. */
  lemma LoggedVotePlain(v: VoteRecord)
    requires LoggedVote(v) && PlainText(v.ts)
    ensures PlainRecord(v) && OneLine(v)
  {
    SongsPlain();
    KeysPlain();
  }

  /** Every record of a log `vote` wrote, with plain timestamps, is plain. */
  lemma LogPlain(votes: seq<VoteRecord>)
    requires LogOf(votes)
    requires forall i :: 0 <= i < |votes| ==> PlainText(votes[i].ts)
    ensures forall i :: 0 <= i < |votes| ==> OneLine(votes[i]) && PlainRecord(votes[i])
  {
    forall i | 0 <= i < |votes| ensures OneLine(votes[i]) && PlainRecord(votes[i]) {
      LoggedVotePlain(votes[i]);
    }
  }

  /** The header line reads back, column by column, as the six keys of a
      vote record. */
  lemma HeaderFacts()
    ensures Split(HeaderLine(), ',') == ["ts", "segmento", "contexto", "A", "B", "ganador"]
  {
    forall i | 0 <= i < |Headers| ensures ',' !in Headers[i] {
    }
    SplitJoin(Headers, ',');
  }

  /** The header is a single line. */
  lemma HeaderOneLine()
    ensures '\n' !in HeaderLine()
  {
    forall i | 0 <= i < |Headers| ensures '\n' !in Headers[i] {
    }
    JoinWithout(Headers, ',', '\n');
  }

  /** The six quoted fields of a record, in header order. */
  lemma QuotedFieldsAre(v: VoteRecord)
    ensures QuotedFields(v) == [Quote(v.ts), Quote(v.segmento), Quote(v.contexto), Quote(v.A), Quote(v.B), Quote(v.ganador)]
  {
  }

  lemma RowNoNewline(v: VoteRecord)
    requires OneLine(v)
    ensures '\n' !in Row(v)
  {
    var fs := QuotedFields(v);
    forall i | 0 <= i < |fs| ensures '\n' !in fs[i] {
      assert '\n' !in Field(v, Headers[i]);
    }
    JoinWithout(fs, ',', '\n');
  }

  /** A row of a plain record splits back into the six fields of the record,
      in header order, each wrapped in double quotes. */
  lemma RowFields(v: VoteRecord)
    requires PlainRecord(v)
    ensures Split(Row(v), ',') == [Quote(v.ts), Quote(v.segmento), Quote(v.contexto), Quote(v.A), Quote(v.B), Quote(v.ganador)]
  {
    var fs := QuotedFields(v);
    forall i | 0 <= i < |fs| ensures ',' !in fs[i] {
      assert PlainText(Field(v, Headers[i]));
    }
    SplitJoin(fs, ',');
    QuotedFieldsAre(v);
  }

  /** A log of N records whose fields have no line break exports as N + 1 lines: the header, then one
      row per vote in log order. */
  lemma CsvLines(votes: seq<VoteRecord>)
    requires votes != []
    requires forall i :: 0 <= i < |votes| ==> OneLine(votes[i])
    ensures Split(Csv(votes).value, '\n') == [HeaderLine()] + Rows(votes)
    ensures |Split(Csv(votes).value, '\n')| == |votes| + 1
  {
    var rs := Rows(votes);
    RowsOneLine(votes);
    HeaderOneLine();
    var lines := [HeaderLine()] + rs;
    forall i | 0 <= i < |lines| ensures '\n' !in lines[i] {
      if i > 0 {
        assert lines[i] == rs[i - 1];
      }
    }
    SplitJoin(lines, '\n');
  }

  /** No row of such a log breaks a line. */
  lemma RowsOneLine(votes: seq<VoteRecord>)
    requires forall i :: 0 <= i < |votes| ==> OneLine(votes[i])
    ensures forall i :: 0 <= i < |Rows(votes)| ==> '\n' !in Rows(votes)[i]
  {
    forall i | 0 <= i < |votes| ensures '\n' !in Rows(votes)[i] {
      RowNoNewline(votes[i]);
    }
  }

  /** The first line of the CSV names the six columns. */
  lemma CsvHeader(votes: seq<VoteRecord>)
    requires votes != []
    requires forall i :: 0 <= i < |votes| ==> OneLine(votes[i])
    ensures Split(Split(Csv(votes).value, '\n')[0], ',') == ["ts", "segmento", "contexto", "A", "B", "ganador"]
  {
    CsvLines(votes);
    HeaderFacts();
  }

  /** Line `i + 1` of the export is the row of vote `i`. */
  lemma CsvLine(votes: seq<VoteRecord>, i: nat)
    requires i < |votes|
    requires forall j :: 0 <= j < |votes| ==> OneLine(votes[j])
    ensures var lines := Split(Csv(votes).value, '\n');
      i + 1 < |lines| && lines[i + 1] == Row(votes[i])
  {
    CsvLines(votes);
    var lines, rs := Split(Csv(votes).value, '\n'), Rows(votes);
    assert lines == [HeaderLine()] + rs;
    assert lines[i + 1] == rs[i];
  }

  /** In the line of vote `i`, the winner column holds the same text as the
      A or the B column, when the vote's winner is a contender. */
  lemma CsvWinnerColumn(votes: seq<VoteRecord>, i: nat)
    requires i < |votes|
    requires forall j :: 0 <= j < |votes| ==> OneLine(votes[j])
    requires PlainRecord(votes[i]) && WinnerIsContender(votes[i])
    ensures var lines := Split(Csv(votes).value, '\n');
      && i + 1 < |lines|
      && var cols := Split(lines[i + 1], ',');
        |cols| == 6 && (cols[5] == cols[3] || cols[5] == cols[4])
  {
    CsvLine(votes, i);
    RowFields(votes[i]);
  }

  /** The export of a log `vote` wrote, with plain timestamps: one header
      line and one line per vote, each data line has six columns, and its
      winner column repeats its A or its B column. */
  lemma LogExport(votes: seq<VoteRecord>)
    requires votes != [] && LogOf(votes)
    requires forall i :: 0 <= i < |votes| ==> PlainText(votes[i].ts)
    ensures var lines := Split(Csv(votes).value, '\n');
      && |lines| == |votes| + 1
      && forall j :: 1 <= j < |lines| ==>
        var cols := Split(lines[j], ',');
        |cols| == 6 && (cols[5] == cols[3] || cols[5] == cols[4])
  {
    LogPlain(votes);
    LineCount(votes);
    forall j | 1 <= j < |Split(Csv(votes).value, '\n')|
      ensures var cols := Split(Split(Csv(votes).value, '\n')[j], ',');
        |cols| == 6 && (cols[5] == cols[3] || cols[5] == cols[4])
    {
      LoggedLine(votes, j);
    }
  }

  /** The number of lines of the export of a log without line breaks. */
  lemma LineCount(votes: seq<VoteRecord>)
    requires votes != []
    requires forall i :: 0 <= i < |votes| ==> OneLine(votes[i])
    ensures |Split(Csv(votes).value, '\n')| == |votes| + 1
  {
    CsvLines(votes);
  }

  /** Line `j` of the export of a log `vote` wrote, with plain values. */
  lemma LoggedLine(votes: seq<VoteRecord>, j: nat)
    requires 1 <= j <= |votes| && LogOf(votes)
    requires forall i :: 0 <= i < |votes| ==> OneLine(votes[i]) && PlainRecord(votes[i])
    ensures var lines := Split(Csv(votes).value, '\n');
      && j < |lines|
      && var cols := Split(lines[j], ',');
        |cols| == 6 && (cols[5] == cols[3] || cols[5] == cols[4])
  {
    var i := j - 1;
    assert LoggedVote(votes[i]) && PlainRecord(votes[i]);
    CsvWinnerColumn(votes, i);
    assert i + 1 == j;
  }
}
