/**
 * The text side of the editor's CSV import and export: field escaping on
 * export, the quote-aware line parser on import, and the row guards of the
 * three imports. A null string is read as the empty string, which EscapeCSV
 * maps to "" either way.
 */
module CsvDataManager {
  /** The field holds a character that would break the row: a comma, a double quote or a newline. */
  predicate NeedsQuoting(text: string)
  {
    ',' in text || '"' in text || '\n' in text
  }

  /** text.Replace("\"", "\"\""): every double quote doubled. */
  function DoubleQuotes(text: string): (r: string)
  {
    if |text| == 0 then ""
    else (if text[0] == '"' then "\"\"" else [text[0]]) + DoubleQuotes(text[1..])
  }

  /** EscapeCSV: empty stays empty, plain text is kept, anything else is quoted with its quotes doubled. */
  function EscapeCSV(text: string): string
  {
    if |text| == 0 then ""
    else if NeedsQuoting(text) then "\"" + DoubleQuotes(text) + "\""
    else text
  }

  /**
   * The for loop of ParseCSVLine from some point on: the rest of the line,
   * whether the scan is inside quotes, the field being built and the fields
   * finished so far. A doubled quote inside quotes is one literal quote, any
   * other quote toggles quoting and is dropped, a comma outside quotes ends
   * the field, and the last field is added at the end of the line.
   */
  function ParseRest(rest: string, inQuotes: bool, currentValue: string, values: seq<string>): (r: seq<string>)
    decreases |rest|
  {
    if |rest| == 0 then values + [currentValue]
    else if rest[0] == '"' then
      if inQuotes && |rest| > 1 && rest[1] == '"' then ParseRest(rest[2..], inQuotes, currentValue + "\"", values)
      else ParseRest(rest[1..], !inQuotes, currentValue, values)
    else if rest[0] == ',' && !inQuotes then ParseRest(rest[1..], inQuotes, "", values + [currentValue])
    else ParseRest(rest[1..], inQuotes, currentValue + [rest[0]], values)
  }

  /** The fields of a line. */
  function Parse(line: string): seq<string>
  {
    ParseRest(line, false, "", [])
  }

  /** ParseCSVLine: the character loop, with the look-ahead that skips the second quote of a pair. */
  method ParseCSVLine(line: string) returns (values: seq<string>)
    ensures values == Parse(line)
  {
    values := [];
    var inQuotes := false;
    var currentValue := "";
    var i := 0;
    while i < |line|
      invariant 0 <= i <= |line|
      invariant ParseRest(line[i..], inQuotes, currentValue, values) == Parse(line)
      decreases |line| - i
    {
      var c := line[i];
      if c == '"' {
        if inQuotes && i + 1 < |line| && line[i + 1] == '"' {
          assert line[i..][2..] == line[i + 2..];
          currentValue := currentValue + "\"";
          i := i + 1;
        } else {
          assert line[i..][1..] == line[i + 1..];
          inQuotes := !inQuotes;
        }
      } else if c == ',' && !inQuotes {
        assert line[i..][1..] == line[i + 1..];
        values := values + [currentValue];
        currentValue := "";
      } else {
        assert line[i..][1..] == line[i + 1..];
        currentValue := currentValue + [c];
      }
      i := i + 1;
    }
    values := values + [currentValue];
  }

  /** The number of times c occurs in s. */
  function Occurrences(s: string, c: char): nat
  {
    if |s| == 0 then 0 else (if s[0] == c then 1 else 0) + Occurrences(s[1..], c)
  }

  /**
   * The parse never comes back empty: it adds at least the last field and
   * at most one field per comma besides, and exactly that many when no
   * quote is involved.
   */
  lemma {:induction false} ParseRestFieldCount(rest: string, inQuotes: bool, currentValue: string, values: seq<string>)
    ensures var r := ParseRest(rest, inQuotes, currentValue, values);
            |values| + 1 <= |r| <= |values| + 1 + Occurrences(rest, ',')
            && (!inQuotes && Occurrences(rest, '"') == 0 ==> |r| == |values| + 1 + Occurrences(rest, ','))
            && r[..|values|] == values
    decreases |rest|
  {
    if |rest| > 0 {
      if rest[0] == '"' {
        if inQuotes && |rest| > 1 && rest[1] == '"' {
          ParseRestFieldCount(rest[2..], inQuotes, currentValue + "\"", values);
          assert rest[1..][1..] == rest[2..];
          assert Occurrences(rest[1..], ',') == Occurrences(rest[2..], ',');
        } else {
          ParseRestFieldCount(rest[1..], !inQuotes, currentValue, values);
        }
      } else if rest[0] == ',' && !inQuotes {
        ParseRestFieldCount(rest[1..], inQuotes, "", values + [currentValue]);
        var r := ParseRest(rest, inQuotes, currentValue, values);
        assert r[..|values|] == r[..|values| + 1][..|values|];
      } else {
        ParseRestFieldCount(rest[1..], inQuotes, currentValue + [rest[0]], values);
      }
    }
  }

  /** A line parses into at least one field, one more than its commas when it holds no quote, never more. */
  lemma ParseFieldCount(line: string)
    ensures 1 <= |Parse(line)| <= 1 + Occurrences(line, ',')
    ensures Occurrences(line, '"') == 0 ==> |Parse(line)| == 1 + Occurrences(line, ',')
  {
    ParseRestFieldCount(line, false, "", []);
  }

  /** Outside quotes, text without commas or quotes is copied into the current field. */
  lemma {:induction false} PlainTextIsCopied(text: string, rest: string, currentValue: string, values: seq<string>)
    requires ',' !in text && '"' !in text
    ensures ParseRest(text + rest, false, currentValue, values) == ParseRest(rest, false, currentValue + text, values)
    decreases |text|
  {
    if |text| == 0 {
      assert text + rest == rest;
      assert currentValue + text == currentValue;
    } else {
      assert (text + rest)[0] == text[0];
      assert (text + rest)[1..] == text[1..] + rest;
      PlainTextIsCopied(text[1..], rest, currentValue + [text[0]], values);
      assert currentValue + [text[0]] + text[1..] == currentValue + text;
    }
  }

  /** Inside quotes, the doubled text reads back as the text itself, commas and newlines included. */
  lemma {:induction false} DoubledTextIsCopied(text: string, rest: string, currentValue: string, values: seq<string>)
    ensures ParseRest(DoubleQuotes(text) + rest, true, currentValue, values) == ParseRest(rest, true, currentValue + text, values)
    decreases |text|
  {
    if |text| == 0 {
      assert DoubleQuotes(text) + rest == rest;
      assert currentValue + text == currentValue;
    } else {
      var head := if text[0] == '"' then "\"\"" else [text[0]];
      var tail := DoubleQuotes(text[1..]) + rest;
      var s := DoubleQuotes(text) + rest;
      assert s == head + tail;
      assert s[|head|..] == tail;
      DoubledTextIsCopied(text[1..], rest, currentValue + [text[0]], values);
      assert currentValue + [text[0]] + text[1..] == currentValue + text;
    }
  }

  /** What may follow a field on an exported line: the end of the line or a separating comma. */
  predicate EndsField(rest: string)
  {
    |rest| == 0 || rest[0] == ','
  }

  /** An escaped field, read from the start of a field, gives back the original text as the current field. */
  lemma EscapedFieldParsesBack(text: string, rest: string, values: seq<string>)
    requires EndsField(rest)
    ensures ParseRest(EscapeCSV(text) + rest, false, "", values) == ParseRest(rest, false, text, values)
  {
    if |text| == 0 {
      assert EscapeCSV(text) + rest == rest;
    } else if NeedsQuoting(text) {
      var closing := "\"" + rest;
      assert EscapeCSV(text) + rest == "\"" + (DoubleQuotes(text) + closing);
      assert ("\"" + (DoubleQuotes(text) + closing))[1..] == DoubleQuotes(text) + closing;
      DoubledTextIsCopied(text, closing, "", values);
      assert "" + text == text;
      assert closing[1..] == rest;
    } else {
      PlainTextIsCopied(text, rest, "", values);
      assert "" + text == text;
    }
  }

  /** An exported row: the escaped fields joined by commas. */
  function JoinEscaped(fields: seq<string>): string
    requires |fields| > 0
  {
    if |fields| == 1 then EscapeCSV(fields[0]) else EscapeCSV(fields[0]) + ("," + JoinEscaped(fields[1..]))
  }

  /** Parsing the rest of a joined row appends its fields, in order. */
  lemma {:induction false} JoinedFieldsParseBack(fields: seq<string>, values: seq<string>)
    requires |fields| > 0
    ensures ParseRest(JoinEscaped(fields), false, "", values) == values + fields
    decreases |fields|
  {
    var field := fields[0];
    if |fields| == 1 {
      assert fields == [field];
      assert EscapeCSV(field) + "" == EscapeCSV(field);
      EscapedFieldParsesBack(field, "", values);
    } else {
      var later := JoinEscaped(fields[1..]);
      var tail := "," + later;
      assert tail[1..] == later;
      calc {
        ParseRest(JoinEscaped(fields), false, "", values);
        ParseRest(EscapeCSV(field) + tail, false, "", values);
        { EscapedFieldParsesBack(field, tail, values); }
        ParseRest(tail, false, field, values);
        ParseRest(later, false, "", values + [field]);
        { JoinedFieldsParseBack(fields[1..], values + [field]); }
        values + [field] + fields[1..];
        { assert [field] + fields[1..] == fields; }
        values + fields;
      }
    }
  }

  /** Round trip: any non-empty list of fields, escaped and joined by commas, parses back to itself. */
  lemma ExportThenParse(fields: seq<string>)
    requires |fields| > 0
    ensures Parse(JoinEscaped(fields)) == fields
  {
    JoinedFieldsParseBack(fields, []);
  }

  /** The field counts the three imports demand of a row. */
  const ItemFields: nat := 9
  const EntityFields: nat := 11
  const StoreItemFields: nat := 8

  /**
   * The rows an import acts on: the parsed lines after the header that have
   * at least minFields fields and whose first field is the id of an entry
   * already in the collection, in file order.
   */
  function ImportedRows(lines: seq<string>, minFields: nat, knownIDs: set<string>): (r: seq<seq<string>>)
    requires minFields >= 1
    ensures forall k :: 0 <= k < |r| ==> |r[k]| >= minFields && r[k][0] in knownIDs
    ensures |lines| > 0 ==> |r| <= |lines| - 1
  {
    if |lines| <= 1 then []
    else
      var row := Parse(lines[|lines| - 1]);
      ImportedRows(lines[..|lines| - 1], minFields, knownIDs)
      + (if |row| >= minFields && row[0] in knownIDs then [row] else [])
  }

  /**
   * Every line after the header that has enough fields and a known id is
   * imported, and the header is never imported on its own account.
   */
  lemma {:induction false} EveryQualifyingRowIsImported(lines: seq<string>, minFields: nat, knownIDs: set<string>, i: nat)
    requires minFields >= 1
    requires 1 <= i < |lines|
    requires |Parse(lines[i])| >= minFields && Parse(lines[i])[0] in knownIDs
    ensures Parse(lines[i]) in ImportedRows(lines, minFields, knownIDs)
    decreases |lines|
  {
    if i < |lines| - 1 {
      EveryQualifyingRowIsImported(lines[..|lines| - 1], minFields, knownIDs, i);
    }
  }

  /** A file holding only the header imports nothing. */
  lemma HeaderAloneImportsNothing(header: string, minFields: nat, knownIDs: set<string>)
    requires minFields >= 1
    ensures ImportedRows([header], minFields, knownIDs) == []
  {
  }
}
