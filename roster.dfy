/**
 * The roster upload (POST /api/students): a parsed CSV file is matched against
 * the three required columns, every record becomes a student, students are
 * found or created by SAP id, and their ids are added to the class roster.
 *
 * The student and class collections are in-memory stand-ins for the database:
 * a student's `_id` is its position in the student collection.
 */
module Roster {
  import opened Wrappers
  import opened Text

  /** One CSV record as the parser returns it: header -> cell text. */
  type Row = map<string, string>

  /** What the CSV parser yields: the records, and the header list the
      handler reads off the first record with `Object.keys`. Any header list
      is accepted: the model does not require it to be the key set of
      `rows[0]`, so every property below holds for any headers. */
  datatype Csv = Csv(headers: seq<string>, rows: seq<Row>)

  datatype StudentData = StudentData(name: string, sapId: string, rollNo: string, batch: string)

  datatype Field = Name | SapId | RollNo

  function FieldName(f: Field): string {
    match f
    case Name => "name"
    case SapId => "sapId"
    case RollNo => "rollNo"
  }

  /** The required fields, in the order the handler checks them. */
  const FieldOrder: seq<Field> := [Name, SapId, RollNo]

  /** The header spellings accepted for a required field, in priority order. */
  function Candidates(f: Field): seq<string> {
    match f
    case Name => ["name", "studentname", "fullname"]
    case SapId => ["sapid", "sap", "sapnumber", "sap id", "sapno"]
    case RollNo => ["rollno", "roll", "rollnumber", "roll no", "roll number", "studentid"]
  }

  // ---------------------------------------------------------------------------
  // Header normalisation

  /** The `normalizedHeaders` table once the `forEach` has seen `headers`. */
  function NormalizedHeaders(headers: seq<string>): map<string, string> {
    if headers == [] then map[]
    else
      var last := headers[|headers| - 1];
      NormalizedHeaders(headers[..|headers| - 1])[Normalize(last) := last]
  }

  /** The keys are exactly the normalised headers, and each key maps to a header
      of the CSV that normalises to it. */
  lemma {:induction false} NormalizedHeadersKeys(headers: seq<string>)
    ensures NormalizedHeaders(headers).Keys == set h | h in headers :: Normalize(h)
    ensures forall k :: k in NormalizedHeaders(headers) ==>
      NormalizedHeaders(headers)[k] in headers && Normalize(NormalizedHeaders(headers)[k]) == k
  {
    if headers != [] {
      var init := headers[..|headers| - 1];
      NormalizedHeadersKeys(init);
      assert headers == init + [headers[|headers| - 1]];
    }
  }

  /** When several headers normalise to the same key, the last of them wins. */
  lemma {:induction false} NormalizedHeadersLastWins(headers: seq<string>, i: nat)
    requires i < |headers|
    requires forall j :: i < j < |headers| ==> Normalize(headers[j]) != Normalize(headers[i])
    ensures Normalize(headers[i]) in NormalizedHeaders(headers)
    ensures NormalizedHeaders(headers)[Normalize(headers[i])] == headers[i]
  {
    if i < |headers| - 1 {
      var init := headers[..|headers| - 1];
      NormalizedHeadersLastWins(init, i);
    }
  }

  /** The `forEach` over the first record's headers. */
  method NormalizeHeaders(headers: seq<string>) returns (norm: map<string, string>)
    ensures norm == NormalizedHeaders(headers)
  {
    norm := map[];
    var i := 0;
    while i < |headers|
      invariant 0 <= i <= |headers|
      invariant norm == NormalizedHeaders(headers[..i])
    {
      norm := norm[Normalize(headers[i]) := headers[i]];
      i := i + 1;
      assert headers[..i][..i - 1] == headers[..i - 1];
    }
    assert headers[..|headers|] == headers;
  }

  // ---------------------------------------------------------------------------
  // Required-field matching

  /** `matches.find(m => keys.includes(Normalize(m)))`, as the index of the
      candidate found: the first one, in list order, whose key is present. */
  function FirstMatch(matches: seq<string>, keys: set<string>): Option<nat> {
    if matches == [] then None
    else if Normalize(matches[0]) in keys then Some(0)
    else
      match FirstMatch(matches[1..], keys)
      case None => None
      case Some(i) => Some(i + 1)
  }

  lemma {:induction false} FirstMatchSpec(matches: seq<string>, keys: set<string>)
    ensures FirstMatch(matches, keys).Some? ==>
      FirstMatch(matches, keys).value < |matches| && Normalize(matches[FirstMatch(matches, keys).value]) in keys
    ensures forall j :: 0 <= j < |matches| && (FirstMatch(matches, keys).None? || j < FirstMatch(matches, keys).value) ==>
      Normalize(matches[j]) !in keys
  {
    if matches != [] && Normalize(matches[0]) !in keys {
      FirstMatchSpec(matches[1..], keys);
      assert forall j :: 1 <= j < |matches| ==> matches[j] == matches[1..][j - 1];
    }
  }

  /** The original header chosen for one required field: the header behind the
      key of the first candidate spelling that the CSV has. */
  function MatchedHeader(f: Field, norm: map<string, string>): Option<string> {
    FirstMatchSpec(Candidates(f), norm.Keys);
    match FirstMatch(Candidates(f), norm.Keys)
    case None => None
    case Some(i) => Some(norm[Normalize(Candidates(f)[i])])
  }

  /** A field is matched exactly when one of its spellings is a key, and then by
      the header behind the first such spelling in list order. */
  lemma MatchedHeaderPriority(f: Field, norm: map<string, string>)
    ensures MatchedHeader(f, norm).None? <==>
      forall j :: 0 <= j < |Candidates(f)| ==> Normalize(Candidates(f)[j]) !in norm
    ensures MatchedHeader(f, norm).Some? ==>
      exists i ::
        && 0 <= i < |Candidates(f)|
        && Normalize(Candidates(f)[i]) in norm
        && MatchedHeader(f, norm).value == norm[Normalize(Candidates(f)[i])]
        && forall j :: 0 <= j < i ==> Normalize(Candidates(f)[j]) !in norm
  {
    FirstMatchSpec(Candidates(f), norm.Keys);
  }

  /** A header matched against the table built from a CSV is one of that CSV's headers. */
  lemma MatchedHeaderIsCsvHeader(f: Field, headers: seq<string>)
    ensures MatchedHeader(f, NormalizedHeaders(headers)).Some? ==>
      MatchedHeader(f, NormalizedHeaders(headers)).value in headers
  {
    FirstMatchSpec(Candidates(f), NormalizedHeaders(headers).Keys);
    NormalizedHeadersKeys(headers);
  }

  /** The header matched for each field, or none. */
  function MatchedHeaders(fields: seq<Field>, norm: map<string, string>): (r: seq<Option<string>>)
    ensures |r| == |fields|
    ensures forall i :: 0 <= i < |fields| ==> r[i] == MatchedHeader(fields[i], norm)
  {
    if fields == [] then [] else [MatchedHeader(fields[0], norm)] + MatchedHeaders(fields[1..], norm)
  }

  type FieldMappings = map<Field, string>

  /** The `for` loop over the required fields, given what each field matched,
      from the mappings `acc` on: it stops at the first field without a match. */
  function Collect(fields: seq<Field>, matched: seq<Option<string>>, acc: FieldMappings): Result<FieldMappings, Field>
    requires |fields| == |matched|
  {
    if fields == [] then Success(acc)
    else
      match matched[0]
      case None => Failure(fields[0])
      case Some(h) => Collect(fields[1..], matched[1..], acc[fields[0] := h])
  }

  /** Collecting fails exactly when some field is unmatched, and then with the
      first such field: the fields after it are not examined. */
  lemma {:induction false} CollectFailure(fields: seq<Field>, matched: seq<Option<string>>, acc: FieldMappings)
    requires |fields| == |matched|
    ensures Collect(fields, matched, acc).Failure? <==> exists i :: 0 <= i < |matched| && matched[i].None?
    ensures Collect(fields, matched, acc).Failure? ==>
      exists i ::
        && 0 <= i < |fields|
        && fields[i] == Collect(fields, matched, acc).error
        && matched[i].None?
        && forall j :: 0 <= j < i ==> matched[j].Some?
  {
    if fields != [] && matched[0].Some? {
      CollectFailure(fields[1..], matched[1..], acc[fields[0] := matched[0].value]);
      assert forall j :: 1 <= j < |matched| ==> matched[j] == matched[1..][j - 1];
      var r := Collect(fields, matched, acc);
      if r.Failure? {
        var i :| 0 <= i < |fields[1..]| && fields[1..][i] == r.error && matched[1..][i].None?
          && forall j :: 0 <= j < i ==> matched[1..][j].Some?;
        assert fields[i + 1] == fields[1..][i];
      }
    }
  }

  /** A successful collection maps every field to its matched header and
      leaves the entries it started from alone. */
  lemma {:induction false} CollectSuccess(fields: seq<Field>, matched: seq<Option<string>>, acc: FieldMappings)
    requires |fields| == |matched|
    requires forall i, j :: 0 <= i < j < |fields| ==> fields[i] != fields[j]
    requires Collect(fields, matched, acc).Success?
    ensures Collect(fields, matched, acc).value.Keys == acc.Keys + set f | f in fields
    ensures forall i :: 0 <= i < |fields| ==> matched[i] == Some(Collect(fields, matched, acc).value[fields[i]])
    ensures forall f :: f in acc && f !in fields ==> Collect(fields, matched, acc).value[f] == acc[f]
  {
    if fields != [] {
      var f0, rest := fields[0], fields[1..];
      var acc' := acc[f0 := matched[0].value];
      assert forall i, j :: 0 <= i < j < |rest| ==> rest[i] != rest[j] by {
        forall i, j | 0 <= i < j < |rest| ensures rest[i] != rest[j] {
          assert rest[i] == fields[i + 1] && rest[j] == fields[j + 1];
        }
      }
      CollectSuccess(rest, matched[1..], acc');
      assert f0 !in rest by {
        forall k | 0 <= k < |rest| ensures rest[k] != f0 {
          assert rest[k] == fields[k + 1];
        }
      }
      var r := Collect(fields, matched, acc);
      forall i | 0 <= i < |fields| ensures matched[i] == Some(r.value[fields[i]]) {
        if i > 0 { assert fields[i] == rest[i - 1] && matched[i] == matched[1..][i - 1]; }
      }
      assert fields == [f0] + rest;
      assert (set f | f in fields) == {f0} + set f | f in rest;
    }
  }

  /** Collecting the matched headers of `fields` fails exactly when one of
      them is unmatched, and then names the first such field. */
  lemma MatchedCollectFailure(fields: seq<Field>, norm: map<string, string>, acc: FieldMappings)
    ensures Collect(fields, MatchedHeaders(fields, norm), acc).Failure? <==>
      exists i :: 0 <= i < |fields| && MatchedHeader(fields[i], norm).None?
    ensures Collect(fields, MatchedHeaders(fields, norm), acc).Failure? ==>
      exists i ::
        && 0 <= i < |fields|
        && fields[i] == Collect(fields, MatchedHeaders(fields, norm), acc).error
        && MatchedHeader(fields[i], norm).None?
        && forall j :: 0 <= j < i ==> MatchedHeader(fields[j], norm).Some?
  {
    CollectFailure(fields, MatchedHeaders(fields, norm), acc);
  }

  /** Collecting the matched headers of distinct fields maps each to its match. */
  lemma MatchedCollectSuccess(fields: seq<Field>, norm: map<string, string>)
    requires forall i, j :: 0 <= i < j < |fields| ==> fields[i] != fields[j]
    requires Collect(fields, MatchedHeaders(fields, norm), map[]).Success?
    ensures Collect(fields, MatchedHeaders(fields, norm), map[]).value.Keys == set f | f in fields
    ensures forall f :: f in fields ==>
      MatchedHeader(f, norm) == Some(Collect(fields, MatchedHeaders(fields, norm), map[]).value[f])
  {
    CollectSuccess(fields, MatchedHeaders(fields, norm), map[]);
  }

  /** The field mappings of the handler: name, then sapId, then rollNo. */
  function FieldMappingsOf(norm: map<string, string>): Result<FieldMappings, Field> {
    Collect(FieldOrder, MatchedHeaders(FieldOrder, norm), map[])
  }

  lemma FieldOrderFields()
    ensures (set f | f in FieldOrder) == {Name, SapId, RollNo}
  {
    assert FieldOrder[0] == Name && FieldOrder[1] == SapId && FieldOrder[2] == RollNo;
  }

  /** On success every required field is mapped. */
  lemma FieldMappingsKeys(norm: map<string, string>)
    ensures FieldMappingsOf(norm).Success? ==> FieldMappingsOf(norm).value.Keys == {Name, SapId, RollNo}
  {
    if FieldMappingsOf(norm).Success? {
      MatchedCollectSuccess(FieldOrder, norm);
      FieldOrderFields();
    }
  }

  /** On success each field is mapped to the header matched for it. */
  lemma FieldMappingsValues(norm: map<string, string>, f: Field)
    requires FieldMappingsOf(norm).Success?
    ensures f in FieldMappingsOf(norm).value
    ensures MatchedHeader(f, norm) == Some(FieldMappingsOf(norm).value[f])
  {
    MatchedCollectSuccess(FieldOrder, norm);
    FieldOrderFields();
  }

  /** Fields are checked in the order name, sapId, rollNo, and the error names
      the first that no candidate matches. */
  lemma FieldMappingsFirstMissing(norm: map<string, string>)
    ensures FieldMappingsOf(norm).Failure? <==>
      exists i :: 0 <= i < |FieldOrder| && MatchedHeader(FieldOrder[i], norm).None?
    ensures FieldMappingsOf(norm).Failure? ==>
      exists i ::
        && 0 <= i < |FieldOrder|
        && FieldOrder[i] == FieldMappingsOf(norm).error
        && MatchedHeader(FieldOrder[i], norm).None?
        && forall j :: 0 <= j < i ==> MatchedHeader(FieldOrder[j], norm).Some?
  {
    MatchedCollectFailure(FieldOrder, norm, map[]);
  }

  /** The loop of the handler that fills `fieldMappings`, returning early with
      the field that has no matching header. */
  method MatchRequiredFields(norm: map<string, string>) returns (r: Result<FieldMappings, Field>)
    ensures r == FieldMappingsOf(norm)
  {
    ghost var all := MatchedHeaders(FieldOrder, norm);
    var mappings: FieldMappings := map[];
    var i := 0;
    while i < |FieldOrder|
      invariant 0 <= i <= |FieldOrder|
      invariant Collect(FieldOrder[i..], all[i..], mappings) == FieldMappingsOf(norm)
    {
      var field := FieldOrder[i];
      var matched := MatchedHeader(field, norm);
      if matched.None? {
        return Failure(field);
      }
      mappings := mappings[field := matched.value];
      assert FieldOrder[i..][1..] == FieldOrder[i + 1..] && all[i..][1..] == all[i + 1..];
      i := i + 1;
    }
    r := Success(mappings);
  }

  // ---------------------------------------------------------------------------
  // Row mapping

  /** `item[h] || ""`: an absent cell reads as the empty string. */
  function Cell(item: Row, h: string): string {
    if h in item then item[h] else ""
  }

  /** The column the batch is read from, as written: with no header
      normalising to "batch", the lookup `normalizedHeaders["batch"]` is
      `undefined`, and indexing a record with `undefined` reads its property
      named "undefined". */
  function BatchColumnAsWritten(norm: map<string, string>): string {
    if "batch" in norm then norm["batch"] else "undefined"
  }

  function BatchCellAsWritten(item: Row, norm: map<string, string>): string {
    Cell(item, BatchColumnAsWritten(norm))
  }

  /** The batch cell as intended: empty when the CSV has no batch column. */
  function BatchCell(item: Row, norm: map<string, string>): (r: string)
    ensures r != "" ==> "batch" in norm && norm["batch"] in item && r == item[norm["batch"]]
    ensures "batch" !in norm ==> r == ""
  {
    if "batch" in norm then Cell(item, norm["batch"]) else ""
  }

  /** A CSV without a batch column but with a column named "undefined":
      as written, its cell becomes the batch instead of the class's batch. */
  lemma BatchReadFromUndefinedColumn()
    ensures var norm := map["name" := "Name", "sapid" := "SAP ID", "rollno" := "Roll No", "undefined" := "undefined"];
      var item := map["Name" := "A", "SAP ID" := "1", "Roll No" := "7", "undefined" := "B2"];
      && BatchCellAsWritten(item, norm) == "B2"
      && BatchCell(item, norm) == ""
  {
  }

  /** Without a batch column and without a column named "undefined", the
      as-written lookup agrees with the intended one. */
  lemma BatchAsWrittenAgrees(item: Row, norm: map<string, string>)
    requires "batch" in norm || "undefined" !in item
    ensures BatchCellAsWritten(item, norm) == BatchCell(item, norm)
  {
  }

  /** One element of `jsonArray.map(...)` before its validation. */
  function MapRow(item: Row, mappings: FieldMappings, norm: map<string, string>, classBatch: string): StudentData
    requires Name in mappings && SapId in mappings && RollNo in mappings
  {
    var batch := BatchCell(item, norm);
    StudentData(Cell(item, mappings[Name]), Cell(item, mappings[SapId]), Cell(item, mappings[RollNo]),
                if batch != "" then batch else classBatch)
  }

  /** The three required values come from the mapped columns, absent cells
      reading as ""; the batch comes from the batch column when that cell is
      non-empty, and is the class's batch otherwise. */
  lemma MapRowFields(item: Row, mappings: FieldMappings, norm: map<string, string>, classBatch: string)
    requires Name in mappings && SapId in mappings && RollNo in mappings
    ensures var s := MapRow(item, mappings, norm, classBatch);
      && (s.name == if mappings[Name] in item then item[mappings[Name]] else "")
      && (s.sapId == if mappings[SapId] in item then item[mappings[SapId]] else "")
      && (s.rollNo == if mappings[RollNo] in item then item[mappings[RollNo]] else "")
      && ("batch" in norm && norm["batch"] in item && item[norm["batch"]] != "" ==> s.batch == item[norm["batch"]])
      && ("batch" !in norm || norm["batch"] !in item || item[norm["batch"]] == "" ==> s.batch == classBatch)
  {
  }

  /** The check that throws on a record with a missing name, sapId or rollNo. */
  predicate Complete(s: StudentData) {
    s.name != "" && s.sapId != "" && s.rollNo != ""
  }

  /** `jsonArray.map(...)`: all records mapped, or the first incomplete one,
      which aborts the whole upload. */
  function MapRows(rows: seq<Row>, mappings: FieldMappings, norm: map<string, string>, classBatch: string)
    : (r: Result<seq<StudentData>, StudentData>)
    requires Name in mappings && SapId in mappings && RollNo in mappings
    ensures r.Success? <==> forall i :: 0 <= i < |rows| ==> Complete(MapRow(rows[i], mappings, norm, classBatch))
    ensures r.Success? ==> |r.value| == |rows|
    ensures r.Success? ==> forall i :: 0 <= i < |rows| ==> r.value[i] == MapRow(rows[i], mappings, norm, classBatch)
    ensures r.Failure? ==>
      exists i ::
        && 0 <= i < |rows|
        && r.error == MapRow(rows[i], mappings, norm, classBatch)
        && !Complete(r.error)
        && forall j :: 0 <= j < i ==> Complete(MapRow(rows[j], mappings, norm, classBatch))
  {
    if rows == [] then Success([])
    else
      var s := MapRow(rows[0], mappings, norm, classBatch);
      if !Complete(s) then Failure(s)
      else
        match MapRows(rows[1..], mappings, norm, classBatch)
        case Failure(e) =>
          assert forall j :: 1 <= j < |rows| ==> rows[1..][j - 1] == rows[j];
          Failure(e)
        case Success(rest) =>
          assert forall j :: 1 <= j < |rows| ==> rows[1..][j - 1] == rows[j];
          Success([s] + rest)
  }

  // ---------------------------------------------------------------------------
  // The student collection and the ingest loop

  /** `findOne({ sapId })`: the first student with that SAP id. */
  function IndexOfSap(docs: seq<StudentData>, sapId: string): (r: Option<nat>)
    ensures r.Some? ==> r.value < |docs| && docs[r.value].sapId == sapId
    ensures r.None? <==> forall i :: 0 <= i < |docs| ==> docs[i].sapId != sapId
  {
    if docs == [] then None
    else if docs[0].sapId == sapId then Some(0)
    else
      match IndexOfSap(docs[1..], sapId)
      case None =>
        assert forall i :: 1 <= i < |docs| ==> docs[i] == docs[1..][i - 1];
        None
      case Some(i) => Some(i + 1)
  }

  /** The unique index on `sapId`. */
  ghost predicate UniqueSapIds(docs: seq<StudentData>) {
    forall i, j :: 0 <= i < j < |docs| ==> docs[i].sapId != docs[j].sapId
  }

  /** The schema's `required` validation: every field a non-empty string. */
  predicate Storable(s: StudentData) {
    s.name != "" && s.sapId != "" && s.rollNo != "" && s.batch != ""
  }

  const ValidationMessage: string := "Student validation failed"

  datatype RowError = RowError(student: StudentData, error: string)

  /** The collection after one record, and the id or the error it contributes. */
  datatype Admission = Admission(docs: seq<StudentData>, outcome: Result<nat, RowError>)

  /** One pass of the ingest loop: reuse the student with that SAP id, or create one. */
  function Admit(docs: seq<StudentData>, s: StudentData): (a: Admission)
    ensures docs <= a.docs && |a.docs| <= |docs| + 1
    ensures a.outcome.Success? ==> a.outcome.value < |a.docs| && a.docs[a.outcome.value].sapId == s.sapId
    ensures IndexOfSap(docs, s.sapId).Some? ==> a.docs == docs && a.outcome == Success(IndexOfSap(docs, s.sapId).value)
    ensures IndexOfSap(docs, s.sapId).None? && Storable(s) ==> a.docs == docs + [s] && a.outcome == Success(|docs|)
    ensures a.outcome.Failure? <==> IndexOfSap(docs, s.sapId).None? && !Storable(s)
    ensures a.outcome.Failure? ==> a.docs == docs && a.outcome.error.student == s
    ensures UniqueSapIds(docs) ==> UniqueSapIds(a.docs)
  {
    match IndexOfSap(docs, s.sapId)
    case Some(id) => Admission(docs, Success(id))
    case None =>
      if Storable(s) then Admission(docs + [s], Success(|docs|))
      else Admission(docs, Failure(RowError(s, ValidationMessage)))
  }

  /** The student collection, the collected ids and the per-record errors. */
  datatype Ingestion = Ingestion(docs: seq<StudentData>, ids: seq<nat>, errors: seq<RowError>)

  function Record(acc: Ingestion, s: StudentData): Ingestion {
    var a := Admit(acc.docs, s);
    match a.outcome
    case Success(id) => Ingestion(a.docs, acc.ids + [id], acc.errors)
    case Failure(e) => Ingestion(a.docs, acc.ids, acc.errors + [e])
  }

  function IngestFrom(acc: Ingestion, students: seq<StudentData>): Ingestion
    decreases |students|
  {
    if students == [] then acc else IngestFrom(Record(acc, students[0]), students[1..])
  }

  /** The ingest loop run over `students` against the collection `docs`. */
  function Ingested(docs: seq<StudentData>, students: seq<StudentData>): Ingestion {
    IngestFrom(Ingestion(docs, [], []), students)
  }

  ghost predicate IdsValid(acc: Ingestion) {
    forall k :: 0 <= k < |acc.ids| ==> acc.ids[k] < |acc.docs|
  }

  /** Every record contributes exactly one id or one error; existing students
      are kept, ids denote stored students, and SAP ids stay unique. */
  lemma {:induction false} IngestFromSpec(acc: Ingestion, students: seq<StudentData>)
    decreases |students|
    ensures var r := IngestFrom(acc, students);
      && |r.ids| + |r.errors| == |acc.ids| + |acc.errors| + |students|
      && acc.docs <= r.docs && |r.docs| <= |acc.docs| + |students|
      && acc.ids <= r.ids && acc.errors <= r.errors
      && (IdsValid(acc) ==> IdsValid(r))
      && (UniqueSapIds(acc.docs) ==> UniqueSapIds(r.docs))
      && (forall k :: |acc.errors| <= k < |r.errors| ==> r.errors[k].student in students && !Storable(r.errors[k].student))
  {
    if students != [] {
      var next := Record(acc, students[0]);
      IngestFromSpec(next, students[1..]);
      var r := IngestFrom(acc, students);
      assert r == IngestFrom(next, students[1..]);
      forall k | |next.errors| <= k < |r.errors| ensures r.errors[k].student in students {
        assert r.errors[k].student in students[1..];
        assert forall x :: x in students[1..] ==> x in students;
      }
    }
  }

  /** The accounting of the upload response, for a run from an empty start:
      `insertedCount + errors.length == totalRows`. */
  lemma IngestedAccounting(docs: seq<StudentData>, students: seq<StudentData>)
    ensures var r := Ingested(docs, students);
      && |r.ids| + |r.errors| == |students|
      && docs <= r.docs
      && (forall k :: 0 <= k < |r.ids| ==> r.ids[k] < |r.docs|)
      && (UniqueSapIds(docs) ==> UniqueSapIds(r.docs))
      && (forall e :: e in r.errors ==> e.student in students && !Storable(e.student))
  {
    IngestFromSpec(Ingestion(docs, [], []), students);
  }

  /** Records whose SAP ids are all known create nothing: every id is the existing student's. */
  lemma {:induction false} IngestKnownReuses(acc: Ingestion, students: seq<StudentData>)
    decreases |students|
    requires forall i :: 0 <= i < |students| ==> IndexOfSap(acc.docs, students[i].sapId).Some?
    ensures IngestFrom(acc, students).docs == acc.docs
    ensures IngestFrom(acc, students).errors == acc.errors
    ensures |IngestFrom(acc, students).ids| == |acc.ids| + |students|
    ensures forall i :: 0 <= i < |students| ==>
      IngestFrom(acc, students).ids[|acc.ids| + i] == IndexOfSap(acc.docs, students[i].sapId).value
  {
    if students != [] {
      var next := Record(acc, students[0]);
      assert next.docs == acc.docs;
      forall i | 0 <= i < |students[1..]| ensures IndexOfSap(next.docs, students[1..][i].sapId).Some? {
        assert students[1..][i] == students[i + 1];
      }
      IngestKnownReuses(next, students[1..]);
      IngestFromSpec(next, students[1..]);
      forall i | 0 <= i < |students|
        ensures IngestFrom(acc, students).ids[|acc.ids| + i] == IndexOfSap(acc.docs, students[i].sapId).value
      {
        if i > 0 { assert students[1..][i - 1] == students[i]; }
      }
    }
  }

  /** The student collection. */
  class StudentStore {
    var docs: seq<StudentData>

    ghost predicate Valid()
      reads this
    {
      UniqueSapIds(docs)
    }

    constructor ()
      ensures Valid() && docs == []
    {
      docs := [];
    }

    /** `Student.findOne({ sapId })`. */
    method FindOne(sapId: string) returns (r: Option<nat>)
      ensures r.Some? ==> r.value < |docs| && docs[r.value].sapId == sapId
      ensures r.None? <==> forall i :: 0 <= i < |docs| ==> docs[i].sapId != sapId
    {
      r := IndexOfSap(docs, sapId);
    }

    /** `Student.create(data)`: fails the schema's required validation on an
        empty field, and otherwise stores the student under a new id. */
    method Create(s: StudentData) returns (r: Result<nat, string>)
      requires Valid()
      requires IndexOfSap(docs, s.sapId).None?
      modifies this
      ensures Valid()
      ensures r.Success? <==> Storable(s)
      ensures r.Success? ==> r.value == old(|docs|) && docs == old(docs) + [s]
      ensures r.Failure? ==> r.error == ValidationMessage && docs == old(docs)
    {
      if Storable(s) {
        r := Success(|docs|);
        docs := docs + [s];
      } else {
        r := Failure(ValidationMessage);
      }
    }
  }

  /** The loop that finds or creates each student and collects ids and errors. */
  method Ingest(store: StudentStore, students: seq<StudentData>) returns (ids: seq<nat>, errors: seq<RowError>)
    requires store.Valid()
    modifies store
    ensures store.Valid()
    ensures Ingested(old(store.docs), students) == Ingestion(store.docs, ids, errors)
    ensures |ids| + |errors| == |students|
  {
    ids, errors := [], [];
    var i := 0;
    while i < |students|
      invariant 0 <= i <= |students|
      invariant store.Valid()
      invariant IngestFrom(Ingestion(store.docs, ids, errors), students[i..]) == Ingested(old(store.docs), students)
    {
      var s := students[i];
      var found := store.FindOne(s.sapId);
      if found.Some? {
        ids := ids + [found.value];
      } else {
        var created := store.Create(s);
        if created.Success? {
          ids := ids + [created.value];
        } else {
          errors := errors + [RowError(s, created.error)];
        }
      }
      assert students[i..][1..] == students[i + 1..];
      i := i + 1;
    }
    IngestedAccounting(old(store.docs), students);
  }

  // ---------------------------------------------------------------------------
  // The class roster

  /** `$addToSet: { students: { $each: ids } }`: each id not yet on the roster
      is appended, in order. */
  function AddAllToSet(roster: seq<nat>, ids: seq<nat>): (r: seq<nat>)
    decreases |ids|
    ensures roster <= r
    ensures forall x :: x in r <==> x in roster || x in ids
    ensures NoDuplicates(roster) ==> NoDuplicates(r)
  {
    if ids == [] then roster
    else
      var next := if ids[0] in roster then roster else roster + [ids[0]];
      var r := AddAllToSet(next, ids[1..]);
      assert forall x :: x in ids <==> x == ids[0] || x in ids[1..];
      r
  }

  /** Adding ids that are all on the roster already changes nothing. */
  lemma {:induction false} AddKnownIsIdentity(roster: seq<nat>, ids: seq<nat>)
    requires forall x :: x in ids ==> x in roster
    decreases |ids|
    ensures AddAllToSet(roster, ids) == roster
  {
    if ids != [] {
      assert ids[0] in roster;
      assert forall x :: x in ids[1..] ==> x in ids;
      AddKnownIsIdentity(roster, ids[1..]);
    }
  }

  /** Adding the same ids twice is adding them once. */
  lemma AddAllToSetIdempotent(roster: seq<nat>, ids: seq<nat>)
    ensures AddAllToSet(AddAllToSet(roster, ids), ids) == AddAllToSet(roster, ids)
  {
    AddKnownIsIdentity(AddAllToSet(roster, ids), ids);
  }

  datatype ClassDoc = ClassDoc(batch: string, students: seq<nat>)

  /** The class collection, keyed by class id. */
  class ClassStore {
    var classes: map<string, ClassDoc>

    constructor (classes: map<string, ClassDoc>)
      ensures this.classes == classes
    {
      this.classes := classes;
    }

    /** `Class.findByIdAndUpdate(classId, { $addToSet: ... })`. */
    method AddStudents(classId: string, ids: seq<nat>)
      requires classId in classes
      modifies this
      ensures classes == old(classes)[classId := old(classes)[classId].(students := AddAllToSet(old(classes)[classId].students, ids))]
    {
      var doc := classes[classId];
      classes := classes[classId := doc.(students := AddAllToSet(doc.students, ids))];
    }
  }

  /** Skipping the roster update when no id was collected changes nothing:
      the union with no ids is the roster itself. */
  lemma AddNothingIsIdentity(roster: seq<nat>)
    ensures AddAllToSet(roster, []) == roster
  {
  }

  // ---------------------------------------------------------------------------
  // The handler

  datatype UploadBody =
    | Message(error: string)
    | InvalidStudent(student: StudentData)
    | Uploaded(message: string, insertedCount: nat, totalRows: nat, errors: seq<RowError>)

  datatype UploadResponse = UploadResponse(status: nat, body: UploadBody)

  const UploadedMessage: string := "Students uploaded and linked to class successfully"

  /** What the handler makes of a parsed CSV with at least one record:
      a 400 naming a missing field, a 500 carrying an incomplete record, or
      the records to ingest. */
  function FromCsv(csv: Csv, classBatch: string): (r: Result<seq<StudentData>, UploadResponse>)
    ensures r.Failure? ==> r.error.status == 400 || r.error.status == 500
    ensures r.Success? ==> |r.value| == |csv.rows| && forall i :: 0 <= i < |r.value| ==> Complete(r.value[i])
  {
    var norm := NormalizedHeaders(csv.headers);
    match FieldMappingsOf(norm)
    case Failure(f) => Failure(UploadResponse(400, Message("Missing required field in CSV: " + FieldName(f))))
    case Success(m) =>
      FieldMappingsKeys(norm);
      match MapRows(csv.rows, m, norm, classBatch)
      case Failure(s) => Failure(UploadResponse(500, InvalidStudent(s)))
      case Success(students) => Success(students)
  }

  /** Everything the handler decides before it looks up a single student:
      an early response, or the records to ingest. */
  function Prepare(classes: map<string, ClassDoc>, file: Option<string>, classId: string, parsed: Option<Csv>)
    : (r: Result<seq<StudentData>, UploadResponse>)
    ensures r.Failure? ==> r.error.status == 400 || r.error.status == 404 || r.error.status == 500
    ensures r.Success? ==>
      && file.Some? && !IsBlank(file.value) && classId != "" && classId in classes
      && parsed.Some? && |r.value| == |parsed.value.rows| > 0
      && forall i :: 0 <= i < |r.value| ==> Complete(r.value[i])
  {
    if file.None? || classId == "" then Failure(UploadResponse(400, Message("Missing file or classId")))
    else if classId !in classes then Failure(UploadResponse(404, Message("Class not found")))
    else if Trim(file.value) == "" then Failure(UploadResponse(400, Message("CSV file is empty")))
    else if parsed.None? then Failure(UploadResponse(400, Message("Invalid CSV format")))
    else if |parsed.value.rows| == 0 then Failure(UploadResponse(400, Message("No student records found in CSV")))
    else
      TrimEmptyIffBlank(file.value);
      FromCsv(parsed.value, classes[classId].batch)
  }

  /** A request without a file or without a class id is refused with 400,
      before anything else is looked at. */
  lemma MissingInputRejected(classes: map<string, ClassDoc>, file: Option<string>, classId: string, parsed: Option<Csv>)
    requires file.None? || classId == ""
    ensures Prepare(classes, file, classId, parsed) == Failure(UploadResponse(400, Message("Missing file or classId")))
  {
  }

  /** A class id that names no class is refused with 404, whatever the file holds. */
  lemma UnknownClassRejected(classes: map<string, ClassDoc>, content: string, classId: string, parsed: Option<Csv>)
    requires classId != "" && classId !in classes
    ensures Prepare(classes, Some(content), classId, parsed) == Failure(UploadResponse(404, Message("Class not found")))
  {
  }

  /** A non-blank file for an existing class whose CSV has records gets past
      the early checks. */
  lemma PastEarlyChecks(classes: map<string, ClassDoc>, content: string, classId: string, csv: Csv)
    requires classId != "" && classId in classes && !IsBlank(content) && |csv.rows| > 0
    ensures Prepare(classes, Some(content), classId, Some(csv)) == FromCsv(csv, classes[classId].batch)
  {
    TrimEmptyIffBlank(content);
  }

  /** A file that is empty or only white space is refused with 400. */
  lemma BlankFileRejected(classes: map<string, ClassDoc>, content: string, classId: string, parsed: Option<Csv>)
    requires classId != "" && classId in classes
    requires IsBlank(content)
    ensures Prepare(classes, Some(content), classId, parsed) == Failure(UploadResponse(400, Message("CSV file is empty")))
  {
    TrimEmptyIffBlank(content);
  }

  /** A parsed CSV without a single record is refused with 400. */
  lemma NoRecordsRejected(classes: map<string, ClassDoc>, content: string, classId: string, csv: Csv)
    requires classId != "" && classId in classes && !IsBlank(content) && |csv.rows| == 0
    ensures Prepare(classes, Some(content), classId, Some(csv))
      == Failure(UploadResponse(400, Message("No student records found in CSV")))
  {
    TrimEmptyIffBlank(content);
  }

  /** A header row without any spelling of a required field is refused with
      400, naming the first such field in the order name, sapId, rollNo. */
  lemma MissingFieldRejected(classes: map<string, ClassDoc>, content: string, classId: string, csv: Csv, k: nat)
    requires classId != "" && classId in classes && !IsBlank(content) && |csv.rows| > 0
    requires k < |FieldOrder|
    requires MatchedHeader(FieldOrder[k], NormalizedHeaders(csv.headers)).None?
    requires forall j :: 0 <= j < k ==> MatchedHeader(FieldOrder[j], NormalizedHeaders(csv.headers)).Some?
    ensures Prepare(classes, Some(content), classId, Some(csv))
      == Failure(UploadResponse(400, Message("Missing required field in CSV: " + FieldName(FieldOrder[k]))))
  {
    PastEarlyChecks(classes, content, classId, csv);
    var norm := NormalizedHeaders(csv.headers);
    FieldMappingsFirstMissing(norm);
    var r := FieldMappingsOf(norm);
    var i :| 0 <= i < |FieldOrder| && FieldOrder[i] == r.error
      && MatchedHeader(FieldOrder[i], norm).None?
      && forall j :: 0 <= j < i ==> MatchedHeader(FieldOrder[j], norm).Some?;
    assert i == k;
  }

  /** An incomplete record makes the whole upload fail with 500, whatever the
      other records hold; it is the first incomplete record that is reported. */
  lemma IncompleteRowAborts(classes: map<string, ClassDoc>, content: string, classId: string, csv: Csv,
                            m: FieldMappings, k: nat)
    requires classId != "" && classId in classes && !IsBlank(content)
    requires FieldMappingsOf(NormalizedHeaders(csv.headers)) == Success(m)
    requires Name in m && SapId in m && RollNo in m
    requires k < |csv.rows|
    requires !Complete(MapRow(csv.rows[k], m, NormalizedHeaders(csv.headers), classes[classId].batch))
    ensures Prepare(classes, Some(content), classId, Some(csv)).Failure?
    ensures Prepare(classes, Some(content), classId, Some(csv)).error.status == 500
    ensures Prepare(classes, Some(content), classId, Some(csv)).error.body.InvalidStudent?
    ensures !Complete(Prepare(classes, Some(content), classId, Some(csv)).error.body.student)
  {
    PastEarlyChecks(classes, content, classId, csv);
  }

  /** The part of the handler between parsing and the database: normalise
      the headers, map the required fields, map and check every record. */
  method ReadStudents(csv: Csv, classBatch: string) returns (r: Result<seq<StudentData>, UploadResponse>)
    ensures r == FromCsv(csv, classBatch)
  {
    var norm := NormalizeHeaders(csv.headers);
    var mapped := MatchRequiredFields(norm);
    if mapped.Failure? {
      return Failure(UploadResponse(400, Message("Missing required field in CSV: " + FieldName(mapped.error))));
    }
    FieldMappingsKeys(norm);
    var rows := MapRows(csv.rows, mapped.value, norm, classBatch);
    if rows.Failure? {
      return Failure(UploadResponse(500, InvalidStudent(rows.error)));
    }
    r := Success(rows.value);
  }

  /** POST /api/students over the two collections (after the token check). */
  method Upload(store: StudentStore, registry: ClassStore, file: Option<string>, classId: string, parsed: Option<Csv>)
    returns (resp: UploadResponse)
    requires store.Valid()
    modifies store, registry
    ensures store.Valid()
    ensures Prepare(old(registry.classes), file, classId, parsed).Failure? ==>
      && resp == Prepare(old(registry.classes), file, classId, parsed).error
      && store.docs == old(store.docs)
      && registry.classes == old(registry.classes)
    ensures Prepare(old(registry.classes), file, classId, parsed).Success? ==>
      var students := Prepare(old(registry.classes), file, classId, parsed).value;
      var run := Ingested(old(store.docs), students);
      && store.docs == run.docs
      && resp == UploadResponse(200, Uploaded(UploadedMessage, |run.ids|, |students|, run.errors))
      && resp.body.insertedCount + |resp.body.errors| == resp.body.totalRows
      && registry.classes == old(registry.classes)[classId :=
           old(registry.classes)[classId].(students := AddAllToSet(old(registry.classes)[classId].students, run.ids))]
  {
    if file.None? || classId == "" {
      return UploadResponse(400, Message("Missing file or classId"));
    }
    if classId !in registry.classes {
      return UploadResponse(404, Message("Class not found"));
    }
    var classDoc := registry.classes[classId];
    if Trim(file.value) == "" {
      return UploadResponse(400, Message("CSV file is empty"));
    }
    if parsed.None? {
      return UploadResponse(400, Message("Invalid CSV format"));
    }
    var csv := parsed.value;
    if |csv.rows| == 0 {
      return UploadResponse(400, Message("No student records found in CSV"));
    }
    assert Prepare(registry.classes, file, classId, parsed) == FromCsv(csv, classDoc.batch);
    var rows := ReadStudents(csv, classDoc.batch);
    if rows.Failure? {
      return rows.error;
    }
    resp := IngestAndLink(store, registry, classId, rows.value);
  }

  /** The successful end of the handler: ingest every record, add the ids to
      the class roster when there are any, and report the counts. */
  method IngestAndLink(store: StudentStore, registry: ClassStore, classId: string, students: seq<StudentData>)
    returns (resp: UploadResponse)
    requires store.Valid() && classId in registry.classes
    modifies store, registry
    ensures store.Valid()
    ensures var run := Ingested(old(store.docs), students);
      && store.docs == run.docs
      && resp == UploadResponse(200, Uploaded(UploadedMessage, |run.ids|, |students|, run.errors))
      && resp.body.insertedCount + |resp.body.errors| == resp.body.totalRows
      && registry.classes == old(registry.classes)[classId :=
           old(registry.classes)[classId].(students := AddAllToSet(old(registry.classes)[classId].students, run.ids))]
  {
    var classDoc := registry.classes[classId];
    var ids, errors := Ingest(store, students);
    if |ids| > 0 {
      registry.AddStudents(classId, ids);
    } else {
      AddNothingIsIdentity(classDoc.students);
      assert registry.classes == registry.classes[classId := classDoc];
    }
    resp := UploadResponse(200, Uploaded(UploadedMessage, |ids|, |students|, errors));
  }
}
