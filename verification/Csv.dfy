/** Splitting one line of a CSV file into its fields. */
module Csv {

  const QUOTE: char := '"'

  /** The scanner's state: finished fields, the field under way, inside quotes or not. */
  datatype Scan = Scan(fields: seq<string>, current: string, inQuotes: bool)

  /** The scanner on the rest of a line. An escaped quote takes two characters. */
  function ScanRest(s: Scan, rest: string, delimiter: char): Scan
    decreases |rest|
  {
    if rest == "" then s
    else if rest[0] == QUOTE then
      if s.inQuotes && |rest| > 1 && rest[1] == QUOTE then
        ScanRest(s.(current := s.current + [QUOTE]), rest[2..], delimiter)
      else ScanRest(s.(inQuotes := !s.inQuotes), rest[1..], delimiter)
    else if rest[0] == delimiter && !s.inQuotes then
      ScanRest(s.(fields := s.fields + [s.current], current := ""), rest[1..], delimiter)
    else ScanRest(s.(current := s.current + [rest[0]]), rest[1..], delimiter)
  }

  function ParseLine(line: string, delimiter: char): seq<string> {
    var s := ScanRest(Scan([], "", false), line, delimiter);
    s.fields + [s.current]
  }

  method ParseCsvLine(line: string, delimiter: char) returns (fields: seq<string>)
    ensures fields == ParseLine(line, delimiter)
  {
    fields := [];
    var current := "";
    var inQuotes := false;
    var i := 0;
    assert line[0..] == line;
    while i < |line|
      invariant 0 <= i <= |line|
      invariant ScanRest(Scan(fields, current, inQuotes), line[i..], delimiter)
             == ScanRest(Scan([], "", false), line, delimiter)
    {
      var c := line[i];
      assert line[i..][1..] == line[i + 1..];
      if c == QUOTE {
        if inQuotes && i + 1 < |line| && line[i + 1] == QUOTE {
          assert line[i..][2..] == line[i + 2..];
          current := current + [QUOTE];
          i := i + 1;
        } else {
          inQuotes := !inQuotes;
        }
      } else if c == delimiter && !inQuotes {
        fields := fields + [current];
        current := "";
      } else {
        current := current + [c];
      }
      i := i + 1;
    }
    fields := fields + [current];
  }

  // ----- writing lines by the rules of RFC 4180, section 2

  /** Item 7: a quote inside a quoted field is doubled. */
  function Doubled(field: string): string {
    if field == "" then ""
    else (if field[0] == QUOTE then [QUOTE, QUOTE] else [field[0]]) + Doubled(field[1..])
  }

  /** Item 6: these fields have to be quoted. */
  predicate NeedsQuotes(field: string, delimiter: char) {
    QUOTE in field || delimiter in field || '\n' in field || '\r' in field
  }

  /** A field and the writer's choice to quote it; item 5 leaves the choice where quotes are not needed. */
  datatype Written = Written(field: string, quoted: bool)

  ghost predicate Legal(w: Written, delimiter: char) {
    NeedsQuotes(w.field, delimiter) ==> w.quoted
  }

  function WriteField(w: Written): string {
    if w.quoted then [QUOTE] + Doubled(w.field) + [QUOTE] else w.field
  }

  function WriteLine(ws: seq<Written>, delimiter: char): string
    requires |ws| > 0
  {
    if |ws| == 1 then WriteField(ws[0])
    else WriteField(ws[0]) + [delimiter] + WriteLine(ws[1..], delimiter)
  }

  function FieldsOf(ws: seq<Written>): seq<string> {
    if |ws| == 0 then [] else [ws[0].field] + FieldsOf(ws[1..])
  }

  // ----- round trip

  /** What follows a field on a line does not begin with a quote. */
  ghost predicate Follows(rest: string) {
    rest == "" || rest[0] != QUOTE
  }

  lemma {:induction false} ScanDoubled(s: Scan, field: string, rest: string, delimiter: char)
    requires s.inQuotes && Follows(rest) && delimiter != QUOTE
    ensures ScanRest(s, Doubled(field) + [QUOTE] + rest, delimiter)
         == ScanRest(s.(current := s.current + field, inQuotes := false), rest, delimiter)
    decreases |field|
  {
    var line := Doubled(field) + [QUOTE] + rest;
    if field == "" {
      assert line[1..] == rest && (rest != "" ==> line[1] == rest[0]);
      assert s.current + field == s.current;
    } else {
      var tail := Doubled(field[1..]) + [QUOTE] + rest;
      var next := s.(current := s.current + [field[0]]);
      if field[0] == QUOTE { assert line[2..] == tail; } else { assert line[1..] == tail; }
      ScanDoubled(next, field[1..], rest, delimiter);
      assert s.current + [field[0]] + field[1..] == s.current + field;
    }
  }

  lemma {:induction false} ScanPlain(s: Scan, field: string, rest: string, delimiter: char)
    requires !s.inQuotes && QUOTE !in field && delimiter !in field
    ensures ScanRest(s, field + rest, delimiter) == ScanRest(s.(current := s.current + field), rest, delimiter)
    decreases |field|
  {
    if field == "" {
      assert field + rest == rest && s.current + field == s.current;
    } else {
      assert (field + rest)[1..] == field[1..] + rest;
      ScanPlain(s.(current := s.current + [field[0]]), field[1..], rest, delimiter);
      assert s.current + [field[0]] + field[1..] == s.current + field;
    }
  }

  lemma ScanField(fields: seq<string>, w: Written, rest: string, delimiter: char)
    requires Legal(w, delimiter) && Follows(rest) && delimiter != QUOTE
    ensures ScanRest(Scan(fields, "", false), WriteField(w) + rest, delimiter)
         == ScanRest(Scan(fields, w.field, false), rest, delimiter)
  {
    if w.quoted {
      var line := WriteField(w) + rest;
      assert line[1..] == Doubled(w.field) + [QUOTE] + rest;
      ScanDoubled(Scan(fields, "", true), w.field, rest, delimiter);
      assert "" + w.field == w.field;
    } else {
      ScanPlain(Scan(fields, "", false), w.field, rest, delimiter);
      assert "" + w.field == w.field;
    }
  }

  lemma {:induction false} ScanLine(fields: seq<string>, ws: seq<Written>, delimiter: char)
    requires |ws| > 0 && delimiter != QUOTE && forall i :: 0 <= i < |ws| ==> Legal(ws[i], delimiter)
    ensures var s := ScanRest(Scan(fields, "", false), WriteLine(ws, delimiter), delimiter);
      s.fields + [s.current] == fields + FieldsOf(ws)
    decreases |ws|
  {
    if |ws| == 1 {
      assert WriteField(ws[0]) + "" == WriteField(ws[0]);
      ScanField(fields, ws[0], "", delimiter);
      assert FieldsOf(ws) == [ws[0].field];
    } else {
      var rest := [delimiter] + WriteLine(ws[1..], delimiter);
      assert WriteLine(ws, delimiter) == WriteField(ws[0]) + rest;
      ScanField(fields, ws[0], rest, delimiter);
      assert rest[1..] == WriteLine(ws[1..], delimiter);
      ScanLine(fields + [ws[0].field], ws[1..], delimiter);
    }
  }

  /** Parsing a line that was written by the rules returns its fields, whatever they contain and whichever of them
      the writer chose to quote. */
  lemma LineRoundTrip(ws: seq<Written>, delimiter: char)
    requires |ws| > 0 && delimiter != QUOTE && forall i :: 0 <= i < |ws| ==> Legal(ws[i], delimiter)
    ensures ParseLine(WriteLine(ws, delimiter), delimiter) == FieldsOf(ws)
  {
    ScanLine([], ws, delimiter);
    assert [] + FieldsOf(ws) == FieldsOf(ws);
  }

  // ----- every way of writing a field

  /** A part of a field: outside quotes, or between them. */
  datatype Piece = Plain(text: string) | Quoted(text: string)

  /** Plain parts hold neither quotes nor delimiters; two quoted parts do not meet, for that would be a doubled
      quote. */
  ghost predicate LegalPieces(ps: seq<Piece>, delimiter: char) {
    && (forall i :: 0 <= i < |ps| && ps[i].Plain? ==>
         ps[i].text != "" && QUOTE !in ps[i].text && delimiter !in ps[i].text)
    && (forall i :: 0 < i < |ps| ==> ps[i - 1].Plain? || ps[i].Plain?)
  }

  function WritePiece(p: Piece): string {
    if p.Plain? then p.text else [QUOTE] + Doubled(p.text) + [QUOTE]
  }

  function WritePieces(ps: seq<Piece>): string {
    if |ps| == 0 then "" else WritePiece(ps[0]) + WritePieces(ps[1..])
  }

  function TextOf(ps: seq<Piece>): string {
    if |ps| == 0 then "" else ps[0].text + TextOf(ps[1..])
  }

  lemma ScanQuoted(s: Scan, field: string, rest: string, delimiter: char)
    requires !s.inQuotes && Follows(rest) && delimiter != QUOTE
    ensures ScanRest(s, [QUOTE] + Doubled(field) + [QUOTE] + rest, delimiter)
         == ScanRest(s.(current := s.current + field), rest, delimiter)
  {
    var line := [QUOTE] + Doubled(field) + [QUOTE] + rest;
    assert line[1..] == Doubled(field) + [QUOTE] + rest && line[0] == QUOTE;
    ScanDoubled(s.(inQuotes := true), field, rest, delimiter);
    assert s.(inQuotes := true).(current := s.current + field, inQuotes := false) == s.(current := s.current + field);
    hide Doubled;
  }

  lemma ScanPiece(s: Scan, p: Piece, rest: string, delimiter: char)
    requires !s.inQuotes && delimiter != QUOTE
    requires if p.Plain? then QUOTE !in p.text && delimiter !in p.text else Follows(rest)
    ensures ScanRest(s, WritePiece(p) + rest, delimiter)
         == ScanRest(s.(current := s.current + p.text), rest, delimiter)
  {
    if p.Plain? { ScanPlain(s, p.text, rest, delimiter); } else { ScanQuoted(s, p.text, rest, delimiter); }
    hide ScanRest;
    hide Doubled;
  }

  lemma FirstPiece(ps: seq<Piece>, rest: string, delimiter: char)
    requires |ps| > 0 && LegalPieces(ps, delimiter) && Follows(rest)
    ensures LegalPieces(ps[1..], delimiter)
    ensures ps[0].Plain? ==> QUOTE !in ps[0].text && delimiter !in ps[0].text
    ensures ps[0].Quoted? ==> Follows(WritePieces(ps[1..]) + rest)
    ensures WritePieces(ps) + rest == WritePiece(ps[0]) + (WritePieces(ps[1..]) + rest)
  {
    if ps[0].Quoted? { PlainFollows(ps, rest, delimiter); }
    var first, others := WritePiece(ps[0]), WritePieces(ps[1..]);
    assert WritePieces(ps) == first + others;
    Associative(first, others, rest);
    hide Doubled;
    hide WritePieces;
    hide WritePiece;
    hide Follows;
  }

  lemma Associative(a: string, b: string, c: string)
    ensures (a + b) + c == a + (b + c)
  {
  }

  /** What a field is written with is put together, wherever quotes open and close in it. */
  lemma {:induction false} ScanPieces(s: Scan, ps: seq<Piece>, rest: string, delimiter: char)
    requires !s.inQuotes && LegalPieces(ps, delimiter) && Follows(rest) && delimiter != QUOTE
    ensures ScanRest(s, WritePieces(ps) + rest, delimiter)
         == ScanRest(s.(current := s.current + TextOf(ps)), rest, delimiter)
    decreases |ps|
  {
    hide ScanRest;
    hide LegalPieces;
    hide Follows;
    if |ps| == 0 {
      assert WritePieces(ps) + rest == rest && s.current + TextOf(ps) == s.current;
    } else {
      FirstPiece(ps, rest, delimiter);
      assert TextOf(ps) == ps[0].text + TextOf(ps[1..]);
      hide *;
      ScanPiece(s, ps[0], WritePieces(ps[1..]) + rest, delimiter);
      ScanPieces(s.(current := s.current + ps[0].text), ps[1..], rest, delimiter);
      Associative(s.current, ps[0].text, TextOf(ps[1..]));
    }
  }

  lemma PlainFollows(ps: seq<Piece>, rest: string, delimiter: char)
    requires |ps| > 0 && ps[0].Quoted? && LegalPieces(ps, delimiter) && Follows(rest)
    ensures Follows(WritePieces(ps[1..]) + rest)
  {
    if |ps| > 1 {
      assert ps[0].Plain? || ps[1].Plain?;
      assert ps[1].text[0] in ps[1].text;
      assert WritePieces(ps[1..])[0] == ps[1].text[0];
    } else {
      assert WritePieces(ps[1..]) + rest == rest;
    }
  }

  function WriteFields(fields: seq<seq<Piece>>, delimiter: char): string
    requires |fields| > 0
  {
    if |fields| == 1 then WritePieces(fields[0])
    else WritePieces(fields[0]) + ([delimiter] + WriteFields(fields[1..], delimiter))
  }

  function TextsOf(fields: seq<seq<Piece>>): seq<string> {
    if |fields| == 0 then [] else [TextOf(fields[0])] + TextsOf(fields[1..])
  }

  lemma {:induction false} ScanFields(done: seq<string>, fields: seq<seq<Piece>>, delimiter: char)
    requires |fields| > 0 && delimiter != QUOTE
    requires forall i :: 0 <= i < |fields| ==> LegalPieces(fields[i], delimiter)
    ensures var s := ScanRest(Scan(done, "", false), WriteFields(fields, delimiter), delimiter);
      s.fields + [s.current] == done + TextsOf(fields)
    decreases |fields|
  {
    hide WritePieces;
    hide TextOf;
    hide LegalPieces;
    var first := TextOf(fields[0]);
    assert "" + first == first && LegalPieces(fields[0], delimiter);
    if |fields| == 1 {
      assert WritePieces(fields[0]) + "" == WritePieces(fields[0]);
      ScanPieces(Scan(done, "", false), fields[0], "", delimiter);
      assert TextsOf(fields) == [first];
    } else {
      var rest := [delimiter] + WriteFields(fields[1..], delimiter);
      ScanPieces(Scan(done, "", false), fields[0], rest, delimiter);
      assert rest[1..] == WriteFields(fields[1..], delimiter);
      assert ScanRest(Scan(done, first, false), rest, delimiter)
          == ScanRest(Scan(done + [first], "", false), rest[1..], delimiter);
      hide ScanRest;
      ScanFields(done + [first], fields[1..], delimiter);
      assert done + [first] + TextsOf(fields[1..]) == done + TextsOf(fields);
    }
  }

  /** Lines beyond the rules, too: quotes may open and close anywhere in a field. */
  lemma PiecesParse(fields: seq<seq<Piece>>, delimiter: char)
    requires |fields| > 0 && delimiter != QUOTE
    requires forall i :: 0 <= i < |fields| ==> LegalPieces(fields[i], delimiter)
    ensures ParseLine(WriteFields(fields, delimiter), delimiter) == TextsOf(fields)
  {
    ScanFields([], fields, delimiter);
    assert [] + TextsOf(fields) == TextsOf(fields);
  }
}
