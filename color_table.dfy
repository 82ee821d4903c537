/** The colour table of Series.cpp: one `ColorInfo` record per row, and the
    loader `parseCSV`, which drops the header line and keeps every later line
    that reads as a record, in file order. */
module ColorTable {

  import opened Wrappers
  import opened Lexing

  /** One row of the table. `hexCode` is the key a pixel value is compared
      with; the model treats it as an integer. */
  datatype ColorInfo = ColorInfo(
    colorName: string,
    temperatureF: int,
    temperatureC: int,
    intuitiveInterp: string,
    dbz: int,
    precipRateDesc: string,
    hexCode: int)

  const INT_MIN: int := -0x8000_0000
  const INT_MAX: int := 0x7FFF_FFFF

  /** Extraction into a C++ `int`: a decimal integer that fits in 32 bits;
      a value out of range fails the extraction. */
  function ParseInt32(tok: string): (r: Option<int>)
    ensures r.Some? <==> ParseInteger(tok).Some? && INT_MIN <= ParseInteger(tok).value <= INT_MAX
    ensures r.Some? ==> r == ParseInteger(tok)
  {
    match ParseInteger(tok)
    case Some(v) => if INT_MIN <= v <= INT_MAX then Some(v) else None
    case None => None
  }

  /** The seven extractions of one line, given its words: string, int, int,
      string, int, string, key. Words after the seventh are never read. */
  function ParseFields(toks: seq<string>): (r: Option<ColorInfo>)
    ensures r.Some? <==>
              |toks| >= 7 && ParseInt32(toks[1]).Some? && ParseInt32(toks[2]).Some? &&
              ParseInt32(toks[4]).Some? && ParseInteger(toks[6]).Some?
    ensures r.Some? ==>
              && r.value.colorName == toks[0]
              && r.value.intuitiveInterp == toks[3]
              && r.value.precipRateDesc == toks[5]
              && Some(r.value.temperatureF) == ParseInt32(toks[1])
              && Some(r.value.temperatureC) == ParseInt32(toks[2])
              && Some(r.value.dbz) == ParseInt32(toks[4])
              && Some(r.value.hexCode) == ParseInteger(toks[6])
  {
    if |toks| < 7 then None
    else
      match (ParseInt32(toks[1]), ParseInt32(toks[2]), ParseInt32(toks[4]), ParseInteger(toks[6]))
      case (Some(f), Some(c), Some(d), Some(k)) =>
        Some(ColorInfo(toks[0], f, c, toks[3], d, toks[5], k))
      case _ => None
  }

  /** One data line read into a record, or None when an extraction fails. */
  function ParseLine(line: string): (r: Option<ColorInfo>)
    ensures r.Some? ==> Printable(r.value)
  {
    ParseFields(Tokens(line))
  }

  /** A record that can be written as one line and read back: its string
      fields are single words and its integer fields fit a C++ `int`. */
  predicate Printable(e: ColorInfo) {
    && IsWord(e.colorName) && IsWord(e.intuitiveInterp) && IsWord(e.precipRateDesc)
    && INT_MIN <= e.temperatureF <= INT_MAX
    && INT_MIN <= e.temperatureC <= INT_MAX
    && INT_MIN <= e.dbz <= INT_MAX
  }

  /** Words separated by single blanks. */
  function JoinWords(ws: seq<string>): string
    requires |ws| > 0
  {
    if |ws| == 1 then ws[0] else ws[0] + " " + JoinWords(ws[1..])
  }

  /** The words a record is written as, in field order. */
  function FieldWords(e: ColorInfo): seq<string> {
    [e.colorName, ShowInt(e.temperatureF), ShowInt(e.temperatureC), e.intuitiveInterp,
     ShowInt(e.dbz), e.precipRateDesc, ShowInt(e.hexCode)]
  }

  /** The line a record is written as: its seven fields separated by blanks. */
  function FormatLine(e: ColorInfo): string {
    JoinWords(FieldWords(e))
  }

  /** Joined words, followed by a blank and more text, read back as those words
      and then the words of the text. */
  lemma {:induction false} TokensOfJoinThen(ws: seq<string>, tail: string)
    requires |ws| > 0 && forall i :: 0 <= i < |ws| ==> IsWord(ws[i])
    ensures Tokens(JoinWords(ws) + " " + tail) == ws + Tokens(tail)
  {
    if |ws| == 1 {
      TokensOfWordThen(ws[0], tail);
    } else {
      var rest := JoinWords(ws[1..]) + " " + tail;
      BlankAssoc(ws[0], JoinWords(ws[1..]), tail);
      TokensOfJoinThen(ws[1..], tail);
      TokensOfWordThen(ws[0], rest);
      assert ws == [ws[0]] + ws[1..];
    }
  }

  lemma BlankAssoc(a: string, b: string, c: string)
    ensures a + " " + b + " " + c == a + " " + (b + " " + c)
  {
  }

  lemma FieldWordsRead(e: ColorInfo)
    requires Printable(e)
    ensures forall i :: 0 <= i < 7 ==> IsWord(FieldWords(e)[i])
    ensures ParseFields(FieldWords(e)) == Some(e)
  {
    ParseShowInt(e.temperatureF);
    ParseShowInt(e.temperatureC);
    ParseShowInt(e.dbz);
    ParseShowInt(e.hexCode);
  }

  /** Reading never looks past the seventh word: a formatted record followed by
      any further words still reads as that record. */
  lemma ParseFormatLineThen(e: ColorInfo, tail: string)
    requires Printable(e)
    ensures ParseLine(FormatLine(e) + " " + tail) == Some(e)
  {
    FieldWordsRead(e);
    TokensOfJoinThen(FieldWords(e), tail);
  }

  /** Writing a record and reading the line back gives the record. */
  lemma ParseFormatLine(e: ColorInfo)
    requires Printable(e)
    ensures ParseLine(FormatLine(e)) == Some(e)
  {
    FieldWordsRead(e);
    TokensOfJoinThen(FieldWords(e), "");
    assert FormatLine(e) + " " + "" == FormatLine(e) + " ";
    TrailingBlank(FormatLine(e));
    assert FieldWords(e) + [] == FieldWords(e);
  }

  lemma {:induction false} TrailingBlank(s: string)
    ensures Tokens(s + " ") == Tokens(s)
    decreases |s|
  {
    var t := s + " ";
    if |s| == 0 {
      assert t[1..] == [];
    } else if IsSpace(s[0]) {
      assert t[1..] == s[1..] + " ";
      TrailingBlank(s[1..]);
    } else {
      var n := WordLength(s);
      WordLengthExtend(s);
      assert t[..n] == s[..n];
      assert t[n..] == s[n..] + " ";
      TrailingBlank(s[n..]);
    }
  }

  lemma WordLengthExtend(s: string)
    ensures WordLength(s + " ") == WordLength(s)
  {
    var n := WordLength(s);
    var t := s + " ";
    assert forall i :: 0 <= i < |s| ==> t[i] == s[i];
    assert t[|s|] == ' ';
  }

  /** The records of the lines that read, in line order. */
  function Accepted(lines: seq<string>): (r: seq<ColorInfo>)
    ensures |r| <= |lines|
  {
    if |lines| == 0 then []
    else
      var init := lines[..|lines| - 1];
      match ParseLine(lines[|lines| - 1])
      case Some(e) => Accepted(init) + [e]
      case None => Accepted(init)
  }

  /** The lines that do not read, in line order (one diagnostic each). */
  function Rejected(lines: seq<string>): (r: seq<string>)
    ensures |Accepted(lines)| + |r| == |lines|
  {
    if |lines| == 0 then []
    else
      var init := lines[..|lines| - 1];
      var last := lines[|lines| - 1];
      if ParseLine(last).None? then Rejected(init) + [last] else Rejected(init)
  }

  /** One more line adds its record, or its diagnostic. */
  lemma AcceptedSnoc(lines: seq<string>, l: string)
    ensures Accepted(lines + [l]) == Accepted(lines) + (if ParseLine(l).Some? then [ParseLine(l).value] else [])
    ensures Rejected(lines + [l]) == Rejected(lines) + (if ParseLine(l).Some? then [] else [l])
  {
    assert (lines + [l])[..|lines|] == lines;
  }

  /** Every kept record is what some line reads as, and every reported line is
      a line of the input that does not read. */
  lemma {:induction false} AcceptedFromLines(lines: seq<string>)
    ensures forall e :: e in Accepted(lines) ==> exists l :: l in lines && ParseLine(l) == Some(e)
    ensures forall l :: l in Rejected(lines) ==> l in lines && ParseLine(l).None?
    decreases |lines|
  {
    if |lines| > 0 {
      var init := lines[..|lines| - 1];
      AcceptedFromLines(init);
      assert lines == init + [lines[|lines| - 1]];
      AcceptedSnoc(init, lines[|lines| - 1]);
      assert forall l :: l in init ==> l in lines;
    }
  }

  /** Each line is read on its own: the records (and the diagnostics) of two
      stretches of lines are those of the first followed by those of the second. */
  lemma {:induction false} AcceptedConcat(a: seq<string>, b: seq<string>)
    ensures Accepted(a + b) == Accepted(a) + Accepted(b)
    ensures Rejected(a + b) == Rejected(a) + Rejected(b)
    decreases |b|
  {
    if |b| == 0 {
      assert a + b == a;
    } else {
      var init, last := b[..|b| - 1], b[|b| - 1];
      assert a + b == (a + init) + [last];
      assert init + [last] == b;
      AcceptedConcat(a, init);
      AcceptedSnoc(a + init, last);
      AcceptedSnoc(init, last);
    }
  }

  /** A line read alone contributes its record, or its diagnostic. */
  lemma AcceptedSingle(l: string)
    ensures Accepted([l]) == if ParseLine(l).Some? then [ParseLine(l).value] else []
    ensures Rejected([l]) == if ParseLine(l).Some? then [] else [l]
  {
    AcceptedSnoc([], l);
    assert [] + [l] == [l];
  }

  /** The lines a list of records is written as, one record per line. */
  function FormatLines(entries: seq<ColorInfo>): (r: seq<string>)
    ensures |r| == |entries|
    ensures forall i :: 0 <= i < |entries| ==> r[i] == FormatLine(entries[i])
  {
    seq(|entries|, i requires 0 <= i < |entries| => FormatLine(entries[i]))
  }

  /** Lines that each read as the record at the same position are all kept, in
      order, and none is reported. */
  lemma {:induction false} AcceptReadable(lines: seq<string>, entries: seq<ColorInfo>)
    requires |lines| == |entries|
    requires forall i :: 0 <= i < |lines| ==> ParseLine(lines[i]) == Some(entries[i])
    ensures Accepted(lines) == entries
    ensures Rejected(lines) == []
    decreases |lines|
  {
    if |lines| > 0 {
      var n := |lines| - 1;
      var init, rows := lines[..n], entries[..n];
      forall i | 0 <= i < n
        ensures ParseLine(init[i]) == Some(rows[i])
      {
        assert init[i] == lines[i] && rows[i] == entries[i];
      }
      AcceptReadable(init, rows);
      assert lines == init + [lines[n]];
      AcceptedSnoc(init, lines[n]);
      assert entries == rows + [entries[n]];
    }
  }

  /** Writing printable records one per line and reading the lines gives the
      records back, in order, with no diagnostic. */
  lemma AcceptFormatLines(entries: seq<ColorInfo>)
    requires forall i :: 0 <= i < |entries| ==> Printable(entries[i])
    ensures Accepted(FormatLines(entries)) == entries
    ensures Rejected(FormatLines(entries)) == []
  {
    var lines := FormatLines(entries);
    forall i | 0 <= i < |lines|
      ensures ParseLine(lines[i]) == Some(entries[i])
    {
      ParseFormatLine(entries[i]);
    }
    AcceptReadable(lines, entries);
  }

  /** The table `parseCSV` builds from the lines of a file: the first line is
      the header. */
  function LoadTable(lines: seq<string>): seq<ColorInfo> {
    if |lines| == 0 then [] else Accepted(lines[1..])
  }

  /** `parseCSV` without the file handling: skips the header, then reads each
      line, keeping the records that read and reporting the lines that do not. */
  method ParseCsv(lines: seq<string>) returns (table: seq<ColorInfo>, rejected: seq<string>)
    ensures table == LoadTable(lines)
    ensures rejected == if |lines| == 0 then [] else Rejected(lines[1..])
  {
    table, rejected := [], [];
    if |lines| == 0 {
      return;
    }
    var i := 1;
    while i < |lines|
      invariant 1 <= i <= |lines|
      invariant table == Accepted(lines[1..i])
      invariant rejected == Rejected(lines[1..i])
    {
      var line := lines[i];
      assert lines[1..i + 1][..i - 1] == lines[1..i];
      match ParseLine(line) {
        case None =>
          rejected := rejected + [line];
        case Some(info) =>
          table := table + [info];
      }
      i := i + 1;
    }
    assert lines[1..i] == lines[1..];
  }

  /** Loading a file whose data lines were written from records gives exactly
      those records, whatever the header line holds. */
  lemma LoadFormattedTable(header: string, entries: seq<ColorInfo>)
    requires forall i :: 0 <= i < |entries| ==> Printable(entries[i])
    ensures LoadTable([header] + FormatLines(entries)) == entries
  {
    assert ([header] + FormatLines(entries))[1..] == FormatLines(entries);
    AcceptFormatLines(entries);
  }
}
