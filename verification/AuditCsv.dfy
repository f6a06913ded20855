/**
 * The audit log's CSV export, proved against a reader written from section 2 of RFC 4180 with
 * LF as the record separator.
 */
module AuditCsv {
  import opened JsText

  /** `metadata` is the text `JSON.stringify` gives for it, when it is truthy. */
  datatype Event = Event(
    id: string, createTime: string, action: string, actorEmail: Option<string>, actorName: Option<string>,
    targetType: Option<string>, targetId: Option<string>, targetName: Option<string>, metadata: Option<string>)

  const HEADER := [
    "id", "createTime", "action", "actorEmail", "actorName", "targetType", "targetId", "targetName", "metadata"]

  // ---- the printer ------------------------------------------------------------------------

  function OrEmpty(v: Option<string>): string {
    if v.Some? then v.value else ""
  }

  function Fields(e: Event): seq<string> {
    [e.id, e.createTime, e.action, OrEmpty(e.actorEmail), OrEmpty(e.actorName),
     OrEmpty(e.targetType), OrEmpty(e.targetId), OrEmpty(e.targetName), OrEmpty(e.metadata)]
  }

  predicate IsSpecial(c: char) {
    c == '"' || c == ',' || c == LF
  }

  predicate HasSpecial(s: string) {
    exists i :: 0 <= i < |s| && IsSpecial(s[i])
  }

  /** `s.replace(/"/g, '""')`. */
  function DoubleQuotes(s: string): string {
    if s == "" then "" else (if s[0] == '"' then "\"\"" else [s[0]]) + DoubleQuotes(s[1..])
  }

  function Escape(s: string): string {
    if HasSpecial(s) then "\"" + DoubleQuotes(s) + "\"" else s
  }

  function EscapeAll(fields: seq<string>): seq<string> {
    if fields == [] then [] else [Escape(fields[0])] + EscapeAll(fields[1..])
  }

  function JoinWith(sep: char, parts: seq<string>): string {
    if parts == [] then "" else if |parts| == 1 then parts[0]
    else parts[0] + [sep] + JoinWith(sep, parts[1..])
  }

  function Rows(events: seq<Event>): seq<string> {
    if events == [] then [] else [JoinWith(',', EscapeAll(Fields(events[0])))] + Rows(events[1..])
  }

  function ToCSV(events: seq<Event>): string {
    JoinWith(LF, [JoinWith(',', HEADER)] + Rows(events))
  }

  // ---- the reader -------------------------------------------------------------------------

  datatype Read<T> = Read(value: T, rest: string)

  /** A field without quotes runs to the next comma or line break; a strict reader also refuses a CR in it. */
  function ReadBare(strict: bool, s: string): (r: Option<Read<string>>)
    ensures r.Some? ==> |r.value.rest| <= |s| && (r.value.rest == "" || r.value.rest[0] == ',' || r.value.rest[0] == LF)
  {
    if s == "" || s[0] == ',' || s[0] == LF then Some(Read("", s))
    else if s[0] == '"' || (strict && s[0] == CR) then None
    else
      var tail := ReadBare(strict, s[1..]);
      if tail.None? then None else Some(Read([s[0]] + tail.value.value, tail.value.rest))
  }

  /** Inside quotes everything is text; a quote is written twice, and a single one ends the field. */
  function ReadQuoted(s: string): (r: Option<Read<string>>)
    ensures r.Some? ==> |r.value.rest| < |s|
    decreases |s|
  {
    if s == "" then None
    else if s[0] == '"' && (|s| == 1 || s[1] != '"') then Some(Read("", s[1..]))
    else
      var tail := ReadQuoted(if s[0] == '"' then s[2..] else s[1..]);
      if tail.None? then None else Some(Read([s[0]] + tail.value.value, tail.value.rest))
  }

  function ReadField(strict: bool, s: string): (r: Option<Read<string>>)
    ensures r.Some? ==> |r.value.rest| <= |s|
  {
    if s != "" && s[0] == '"' then ReadQuoted(s[1..]) else ReadBare(strict, s)
  }

  function ReadRecord(strict: bool, s: string): (r: Option<Read<seq<string>>>)
    ensures r.Some? ==> |r.value.rest| <= |s| && (r.value.rest == "" || r.value.rest[0] == LF)
    decreases |s|
  {
    var field := ReadField(strict, s);
    if field.None? then None
    else
      var rest := field.value.rest;
      if rest == "" || rest[0] == LF then Some(Read([field.value.value], rest))
      else if rest[0] != ',' then None
      else
        var more := ReadRecord(strict, rest[1..]);
        if more.None? then None else Some(Read([field.value.value] + more.value.value, more.value.rest))
  }

  /** Records separated by line breaks; the last record may or may not have one. */
  function ReadFile(strict: bool, s: string): Option<seq<seq<string>>>
    decreases |s|
  {
    var record := ReadRecord(strict, s);
    if record.None? then None
    else if |record.value.rest| <= 1 then Some([record.value.value])
    else
      var more := ReadFile(strict, record.value.rest[1..]);
      if more.None? then None else Some([record.value.value] + more.value)
  }

  /** The reader refuses text behind a closing quote and a quote inside a bare field. */
  lemma StrayTextIsRefused(strict: bool, c: char, rest: string)
    requires c != ',' && c != LF && c != '"'
    ensures ReadFile(strict, ['"', '"', c] + rest) == None && ReadFile(strict, [c, '"'] + rest) == None
  {
    var quoted, bare := ['"', '"', c] + rest, [c, '"'] + rest;
    assert quoted[1..] == ['"', c] + rest && quoted[1..][1..] == [c] + rest;
    assert ReadQuoted(quoted[1..]) == Some(Read("", [c] + rest));
    assert bare[1..] == ['"'] + rest;
    assert ReadBare(strict, bare[1..]) == None;
  }

  /** The break after the last record may be missing. */
  lemma LastBreakIsOptional(strict: bool, c: char)
    requires c !in [',', LF, CR, '"']
    ensures ReadFile(strict, [c]) == ReadFile(strict, [c, LF]) == Some([[[c]]])
  {
    assert [c][1..] == "" && [c, LF][1..] == [LF] && [c] + "" == [c];
    assert ReadBare(strict, "") == Some(Read("", "")) && ReadBare(strict, [LF]) == Some(Read("", [LF]));
    assert ReadBare(strict, [c]) == Some(Read([c], "")) && ReadBare(strict, [c, LF]) == Some(Read([c], [LF]));
  }

  // ---- the round trip ---------------------------------------------------------------------

  /** The field holds a CR and is printed without quotes. */
  predicate BareCR(s: string) {
    CR in s && !HasSpecial(s)
  }

  predicate AtBreak(rest: string) {
    rest == "" || rest[0] == ',' || rest[0] == LF
  }

  lemma {:induction false} BareRoundTrip(strict: bool, s: string, rest: string)
    requires !HasSpecial(s) && AtBreak(rest)
    ensures ReadBare(strict, s + rest) == if strict && CR in s then None else Some(Read(s, rest))
  {
    if s == "" {
      assert s + rest == rest;
    } else {
      assert IsSpecial(s[0]) == false;
      assert !HasSpecial(s[1..]) by { assert forall i :: 0 <= i < |s[1..]| ==> s[1..][i] == s[i + 1]; }
      BareRoundTrip(strict, s[1..], rest);
      assert (s + rest)[1..] == s[1..] + rest && s == [s[0]] + s[1..];
    }
  }

  lemma {:induction false} QuotedRoundTrip(s: string, rest: string)
    requires AtBreak(rest)
    ensures ReadQuoted(DoubleQuotes(s) + "\"" + rest) == Some(Read(s, rest))
  {
    hide ReadQuoted;
    if s == "" {
      QuotedEnd(rest);
      assert DoubleQuotes(s) + "\"" + rest == "\"" + rest;
    } else {
      var tail := DoubleQuotes(s[1..]) + "\"" + rest;
      QuotedRoundTrip(s[1..], rest);
      QuotedStep(s[0], tail);
      assert DoubleQuotes(s) + "\"" + rest == (if s[0] == '"' then "\"\"" else [s[0]]) + tail;
      assert s == [s[0]] + s[1..];
    }
  }

  lemma QuotedEnd(rest: string)
    requires AtBreak(rest)
    ensures ReadQuoted("\"" + rest) == Some(Read("", rest))
  {
    var text := "\"" + rest;
    assert text[1..] == rest;
  }

  lemma QuotedStep(c: char, tail: string)
    ensures var text := (if c == '"' then "\"\"" else [c]) + tail; var r := ReadQuoted(tail);
      ReadQuoted(text) == if r.None? then None else Some(Read([c] + r.value.value, r.value.rest))
  {
    var text := (if c == '"' then "\"\"" else [c]) + tail;
    assert (if c == '"' then text[2..] else text[1..]) == tail;
  }

  lemma FieldRoundTrip(strict: bool, s: string, rest: string)
    requires AtBreak(rest)
    ensures ReadField(strict, Escape(s) + rest) == if strict && BareCR(s) then None else Some(Read(s, rest))
  {
    hide DoubleQuotes, ReadQuoted, ReadBare;
    var text := Escape(s) + rest;
    if HasSpecial(s) {
      QuotedRoundTrip(s, rest);
      assert text[1..] == DoubleQuotes(s) + "\"" + rest;
    } else {
      BareRoundTrip(strict, s, rest);
      BareStart(s, rest);
    }
  }

  lemma BareStart(s: string, rest: string)
    requires !HasSpecial(s) && AtBreak(rest)
    ensures s + rest != "" ==> (s + rest)[0] != '"'
  {
    assert s != "" ==> !IsSpecial(s[0]) && (s + rest)[0] == s[0];
    assert s == "" ==> s + rest == rest;
  }

  predicate AnyBareCR(fields: seq<string>) {
    exists f :: f in fields && BareCR(f)
  }

  lemma NoBareCRInNone()
    ensures !AnyBareCR([])
  {
  }

  lemma AnyBareCRCons(fields: seq<string>)
    requires fields != []
    ensures AnyBareCR(fields) <==> BareCR(fields[0]) || AnyBareCR(fields[1..])
  {
    hide BareCR;
    assert fields == [fields[0]] + fields[1..];
  }

  lemma RecordCons(strict: bool, field: string, tail: string)
    ensures ReadRecord(strict, Escape(field) + ("," + tail)) ==
      if (strict && BareCR(field)) || ReadRecord(strict, tail).None? then None
      else Some(Read([field] + ReadRecord(strict, tail).value.value, ReadRecord(strict, tail).value.rest))
  {
    hide Escape, BareCR, ReadField;
    FieldRoundTrip(strict, field, "," + tail);
    assert ("," + tail)[1..] == tail;
  }

  lemma RecordLast(strict: bool, field: string, rest: string)
    requires rest == "" || rest[0] == LF
    ensures ReadRecord(strict, Escape(field) + rest) ==
      if strict && BareCR(field) then None else Some(Read([field], rest))
  {
    hide Escape, BareCR, ReadField;
    FieldRoundTrip(strict, field, rest);
  }

  lemma PrintedCons(fields: seq<string>, rest: string)
    requires |fields| > 1
    ensures JoinWith(',', EscapeAll(fields)) + rest
         == Escape(fields[0]) + ("," + (JoinWith(',', EscapeAll(fields[1..])) + rest))
  {
    hide Escape;
    EscapeAllLength(fields);
    assert EscapeAll(fields)[1..] == EscapeAll(fields[1..]);
  }

  lemma PrintedOne(field: string)
    ensures JoinWith(',', EscapeAll([field])) == Escape(field)
  {
    hide Escape;
    assert EscapeAll([field]) == [Escape(field)];
  }

  lemma {:induction false} RecordRoundTrip(strict: bool, fields: seq<string>, rest: string)
    requires fields != [] && (rest == "" || rest[0] == LF)
    ensures ReadRecord(strict, JoinWith(',', EscapeAll(fields)) + rest) ==
      if strict && AnyBareCR(fields) then None else Some(Read(fields, rest))
    decreases |fields|
  {
    hide Escape, EscapeAll, JoinWith, AnyBareCR, BareCR, ReadRecord;
    AnyBareCRCons(fields);
    if |fields| == 1 {
      RecordLast(strict, fields[0], rest);
      PrintedOne(fields[0]);
      assert fields == [fields[0]];
      NoBareCRInNone();
    } else {
      RecordRoundTrip(strict, fields[1..], rest);
      RecordCons(strict, fields[0], JoinWith(',', EscapeAll(fields[1..])) + rest);
      PrintedCons(fields, rest);
      assert fields == [fields[0]] + fields[1..];
    }
  }

  lemma {:induction false} JoinedLength(sep: char, parts: seq<string>)
    ensures |JoinWith(sep, parts)| >= |parts| - 1
  {
    if |parts| > 1 { JoinedLength(sep, parts[1..]); }
  }

  /** Some field of some record holds a CR that the printer leaves bare. */
  predicate AnyBareCRIn(records: seq<seq<string>>) {
    records != [] && (AnyBareCR(records[0]) || AnyBareCRIn(records[1..]))
  }

  function PrintAll(records: seq<seq<string>>): seq<string> {
    if records == [] then [] else [JoinWith(',', EscapeAll(records[0]))] + PrintAll(records[1..])
  }

  lemma FileCons(strict: bool, record: seq<string>, tail: string)
    requires record != [] && tail != ""
    ensures ReadFile(strict, JoinWith(',', EscapeAll(record)) + ([LF] + tail)) ==
      if (strict && AnyBareCR(record)) || ReadFile(strict, tail).None? then None
      else Some([record] + ReadFile(strict, tail).value)
  {
    hide AnyBareCR, EscapeAll, ReadRecord, JoinWith;
    RecordRoundTrip(strict, record, [LF] + tail);
    assert ([LF] + tail)[1..] == tail;
  }

  lemma FileLast(strict: bool, record: seq<string>)
    requires record != []
    ensures ReadFile(strict, JoinWith(',', EscapeAll(record))) ==
      if strict && AnyBareCR(record) then None else Some([record])
  {
    hide AnyBareCR, EscapeAll, ReadRecord, JoinWith;
    var line := JoinWith(',', EscapeAll(record));
    RecordRoundTrip(strict, record, "");
    assert line + "" == line;
  }

  lemma {:induction false} FileRoundTrip(strict: bool, records: seq<seq<string>>)
    requires records != [] && forall r :: r in records ==> |r| >= 2
    ensures ReadFile(strict, JoinWith(LF, PrintAll(records))) ==
      if strict && AnyBareCRIn(records) then None else Some(records)
    decreases |records|
  {
    hide AnyBareCR, EscapeAll, ReadFile;
    var line := JoinWith(',', EscapeAll(records[0]));
    assert records[0] in records;
    if |records| == 1 {
      FileLast(strict, records[0]);
      assert records == [records[0]] && PrintAll(records) == [line];
    } else {
      var tail := JoinWith(LF, PrintAll(records[1..]));
      FileRoundTrip(strict, records[1..]);
      TextOfRecords(records[1..]);
      FileCons(strict, records[0], tail);
      assert PrintAll(records)[1..] == PrintAll(records[1..]);
      assert JoinWith(LF, PrintAll(records)) == line + ([LF] + tail);
      assert records == [records[0]] + records[1..];
    }
  }

  lemma TextOfRecords(records: seq<seq<string>>)
    requires records != [] && forall r :: r in records ==> |r| >= 2
    ensures JoinWith(LF, PrintAll(records)) != ""
  {
    JoinedLength(',', EscapeAll(records[0]));
    EscapeAllLength(records[0]);
  }

  lemma {:induction false} EscapeAllLength(fields: seq<string>)
    ensures |EscapeAll(fields)| == |fields|
  {
    if fields != [] { EscapeAllLength(fields[1..]); }
  }

  function Records(events: seq<Event>): seq<seq<string>> {
    if events == [] then [] else [Fields(events[0])] + Records(events[1..])
  }

  lemma {:induction false} RowsArePrinted(events: seq<Event>)
    ensures Rows(events) == PrintAll(Records(events)) && |Records(events)| == |events|
    ensures forall r :: r in Records(events) ==> |r| == 9
  {
    if events != [] {
      RowsArePrinted(events[1..]);
      assert Records(events)[1..] == Records(events[1..]);
    }
  }

  predicate IsWord(s: string) {
    forall i :: 0 <= i < |s| ==> 'A' <= s[i] <= 'z'
  }

  lemma {:induction false} WordsArePlain(fields: seq<string>)
    requires forall f :: f in fields ==> IsWord(f)
    ensures EscapeAll(fields) == fields && !AnyBareCR(fields)
  {
    if fields == [] {
      NoBareCRInNone();
    } else {
      WordsArePlain(fields[1..]);
      AnyBareCRCons(fields);
      assert IsWord(fields[0]);
      assert fields == [fields[0]] + fields[1..];
    }
  }

  lemma HeaderIsPlain()
    ensures EscapeAll(HEADER) == HEADER && !AnyBareCR(HEADER) && |HEADER| == 9
  {
    hide EscapeAll, AnyBareCR;
    assert IsWord("id") && IsWord("createTime") && IsWord("action");
    assert IsWord("actorEmail") && IsWord("actorName") && IsWord("targetType");
    assert IsWord("targetId") && IsWord("targetName") && IsWord("metadata");
    WordsArePlain(HEADER);
  }

  lemma PrintedWithHeader(events: seq<Event>, header: seq<string>)
    requires EscapeAll(header) == header && !AnyBareCR(header)
    ensures PrintAll([header] + Records(events)) == [JoinWith(',', header)] + Rows(events)
    ensures AnyBareCRIn([header] + Records(events)) == AnyBareCRIn(Records(events))
  {
    hide AnyBareCR, EscapeAll;
    RowsArePrinted(events);
    assert ([header] + Records(events))[1..] == Records(events);
  }

  /**
   * Reading the export gives back the header and one nine-field record per event, every text intact.
   * A reader that forbids a CR outside quotes does so exactly when no field has a CR but nothing that
   * makes the printer quote it.
   */
  lemma CsvRoundTripExact(strict: bool, events: seq<Event>)
    ensures ReadFile(strict, ToCSV(events)) ==
      if strict && AnyBareCRIn(Records(events)) then None else Some([HEADER] + Records(events))
    ensures |Records(events)| == |events| && forall r :: r in Records(events) ==> |r| == 9
  {
    hide ReadFile, PrintAll, AnyBareCR, AnyBareCRIn, EscapeAll, JoinWith;
    HeaderIsPlain();
    RowsArePrinted(events);
    PrintedWithHeader(events, HEADER);
    FileRoundTrip(strict, [HEADER] + Records(events));
  }

  lemma {:induction false} RecordsAt(events: seq<Event>, i: nat)
    requires i < |events|
    ensures i < |Records(events)| && Records(events)[i] == Fields(events[i])
  {
    hide Fields;
    if i > 0 { RecordsAt(events[1..], i - 1); }
  }

  /** An optional property's column: its text where it has one, nothing where it has none. */
  predicate Shows(cell: string, v: Option<string>) {
    (v.Some? ==> cell == v.value) && (v.None? ==> cell == "")
  }

  /** The table read back holds, for every event, each of the nine properties in the column of its name. */
  lemma ExportHoldsEveryProperty(events: seq<Event>, i: nat)
    requires i < |events|
    ensures ReadFile(false, ToCSV(events)).Some?
    ensures var table, e := ReadFile(false, ToCSV(events)).value, events[i];
      && |table| == |events| + 1 && |table[0]| == 9 && |table[i + 1]| == 9
      && table[0][0] == "id" && table[i + 1][0] == e.id
      && table[0][1] == "createTime" && table[i + 1][1] == e.createTime
      && table[0][2] == "action" && table[i + 1][2] == e.action
      && table[0][3] == "actorEmail" && Shows(table[i + 1][3], e.actorEmail)
      && table[0][4] == "actorName" && Shows(table[i + 1][4], e.actorName)
      && table[0][5] == "targetType" && Shows(table[i + 1][5], e.targetType)
      && table[0][6] == "targetId" && Shows(table[i + 1][6], e.targetId)
      && table[0][7] == "targetName" && Shows(table[i + 1][7], e.targetName)
      && table[0][8] == "metadata" && Shows(table[i + 1][8], e.metadata)
  {
    hide ReadFile, ToCSV, Records, AnyBareCRIn, Fields, Shows, HEADER;
    CsvRoundTripExact(false, events);
    RecordsAt(events, i);
    HeaderIs();
    FieldsAre(events[i]);
    assert ([HEADER] + Records(events))[i + 1] == Records(events)[i];
  }

  lemma HeaderIs()
    ensures |HEADER| == 9 && HEADER[0] == "id" && HEADER[1] == "createTime" && HEADER[2] == "action"
    ensures HEADER[3] == "actorEmail" && HEADER[4] == "actorName" && HEADER[5] == "targetType"
    ensures HEADER[6] == "targetId" && HEADER[7] == "targetName" && HEADER[8] == "metadata"
  {
  }

  lemma FieldsAre(e: Event)
    ensures var cells := Fields(e);
      && |cells| == 9 && cells[0] == e.id && cells[1] == e.createTime && cells[2] == e.action
      && Shows(cells[3], e.actorEmail) && Shows(cells[4], e.actorName) && Shows(cells[5], e.targetType)
      && Shows(cells[6], e.targetId) && Shows(cells[7], e.targetName) && Shows(cells[8], e.metadata)
  {
  }

  /** One property of two events, an absent text and an empty one being alike. */
  predicate SameText(a: Option<string>, b: Option<string>) {
    a == b || (a in {None, Some("")} && b in {None, Some("")})
  }

  predicate SameEvent(a: Event, b: Event) {
    && a.id == b.id && a.createTime == b.createTime && a.action == b.action
    && SameText(a.actorEmail, b.actorEmail) && SameText(a.actorName, b.actorName)
    && SameText(a.targetType, b.targetType) && SameText(a.targetId, b.targetId)
    && SameText(a.targetName, b.targetName) && SameText(a.metadata, b.metadata)
  }

  /** Two exports have the same text exactly when they have the same events, up to a missing text and an empty one. */
  lemma CsvIsInjective(a: seq<Event>, b: seq<Event>)
    ensures ToCSV(a) == ToCSV(b) <==> |a| == |b| && forall i :: 0 <= i < |a| ==> SameEvent(a[i], b[i])
  {
    hide ToCSV, ReadFile, Fields, SameEvent;
    if ToCSV(a) == ToCSV(b) {
      CsvRoundTripExact(false, a);
      CsvRoundTripExact(false, b);
      assert ([HEADER] + Records(a))[1..] == Records(a) && ([HEADER] + Records(b))[1..] == Records(b);
      forall i | 0 <= i < |a| ensures SameEvent(a[i], b[i]) {
        ExportHoldsEveryProperty(a, i);
        ExportHoldsEveryProperty(b, i);
        SameCellsSameEvent(ReadFile(false, ToCSV(a)).value[i + 1], a[i], b[i]);
      }
    }
    if |a| == |b| && forall i :: 0 <= i < |a| ==> SameEvent(a[i], b[i]) {
      SameEventsSameText(a, b);
    }
  }

  lemma SameCellsSameEvent(cells: seq<string>, a: Event, b: Event)
    requires |cells| == 9
    requires cells[0] == a.id == b.id && cells[1] == a.createTime == b.createTime && cells[2] == a.action == b.action
    requires Shows(cells[3], a.actorEmail) && Shows(cells[3], b.actorEmail)
    requires Shows(cells[4], a.actorName) && Shows(cells[4], b.actorName)
    requires Shows(cells[5], a.targetType) && Shows(cells[5], b.targetType)
    requires Shows(cells[6], a.targetId) && Shows(cells[6], b.targetId)
    requires Shows(cells[7], a.targetName) && Shows(cells[7], b.targetName)
    requires Shows(cells[8], a.metadata) && Shows(cells[8], b.metadata)
    ensures SameEvent(a, b)
  {
  }

  lemma {:induction false} SameRows(a: seq<Event>, b: seq<Event>)
    requires |a| == |b| && forall i :: 0 <= i < |a| ==> SameEvent(a[i], b[i])
    ensures Rows(a) == Rows(b)
  {
    hide SameEvent, Fields;
    if a != [] {
      SameFields(a[0], b[0]);
      forall i | 0 <= i < |a[1..]| ensures SameEvent(a[1..][i], b[1..][i]) { assert SameEvent(a[i + 1], b[i + 1]); }
      SameRows(a[1..], b[1..]);
    }
  }

  lemma SameFields(a: Event, b: Event)
    requires SameEvent(a, b)
    ensures Fields(a) == Fields(b)
  {
  }

  lemma SameEventsSameText(a: seq<Event>, b: seq<Event>)
    requires |a| == |b| && forall i :: 0 <= i < |a| ==> SameEvent(a[i], b[i])
    ensures ToCSV(a) == ToCSV(b)
  {
    hide SameEvent;
    SameRows(a, b);
  }

  function EventWithId(id: string): Event {
    Event(id, "", "", None, None, None, None, None, None)
  }

  /** An id with a CR in it is printed bare, and a strict reader refuses the export. */
  lemma BareCRIsRefused()
    ensures ReadFile(true, ToCSV([EventWithId("a\rb")])) == None
  {
    var e := EventWithId("a\rb");
    assert Fields(e)[0] == "a\rb" && "a\rb"[1] == CR && !HasSpecial("a\rb");
    assert BareCR(Fields(e)[0]);
    assert Records([e])[0] == Fields(e);
    hide BareCR, ReadFile, ToCSV, Fields;
    assert AnyBareCR(Fields(e)) by { assert Fields(e)[0] in Fields(e); }
    CsvRoundTripExact(true, [e]);
  }
}
